/** Appending an option to a configuration file: exactly when it adds that option and nothing else. */
module ConfigAppend {
  import opened Options
  import opened ConfigSpec
  import opened ConfigLaws
  import opened ConfigRoundTrip
  import opened Lists

  /** No list in the text from `pos` on is left open. */
  predicate ListsClosed(t: string, pos: nat)
    decreases |t| - pos
  {
    pos >= |t| || (OptionClosed(t, pos) && ListsClosed(t, NextLine(t, ParseOption(t, pos).0)))
  }

  predicate NoBrackets(s: string) {
    forall i | 0 <= i < |s| :: s[i] != '[' && s[i] != ']'
  }

  /** The text with its last line ended. */
  function Ended(t: string): string {
    if t != "" && t[|t| - 1] != '\n' then t + "\n" else t
  }

  lemma AppendedParts(t: string, name: string, value: string)
    ensures Appended(t, name, value) == Ended(t) + Line(name, value)
    ensures |t| <= |Ended(t)| <= |t| + 1
    ensures Reappears(t, 0, Appended(t, name, value), 0)
    ensures |Ended(t)| == |t| + 1 ==> Ended(t)[|t|] == '\n'
    ensures |Ended(t)| == |t| ==> t == "" || t[|t| - 1] == '\n'
  {
  }

  /** Only blanks and line ends lie between two positions: parsing may start at either. */
  lemma SkipWhitespace(t: string, i: nat, j: nat)
    requires i <= j <= |t| && forall k | i <= k < j :: Whitespace(t[k])
    ensures ParseOption(t, i) == ParseOption(t, j)
  {
    hide FindIf, FindIfNot, SplitFrom, ToString, ListEnd, Whitespace;
    FindIfNotIs(t, i, |t|, Whitespace, FindIfNot(t, j, |t|, Whitespace));
    assert SplitLine(t, i) == SplitLine(t, j);
  }

  /** From a position behind the old text only the new option is read. */
  lemma ReadsNewOption(t: string, name: string, value: string, pos: nat)
    requires GoodKey(name) && GoodValue(value)
    requires pos <= |Ended(t)| && forall k | pos <= k < |Ended(t)| :: Whitespace(Ended(t)[k])
    ensures ParseFrom(Appended(t, name, value), pos) == map[name := value]
  {
    hide *;
    AppendedParts(t, name, value);
    ParsesToOption(name, value);
    ReadsLine(Ended(t), Line(name, value), pos);
  }

  lemma ParsesToOption(name: string, value: string)
    requires GoodKey(name) && GoodValue(value)
    ensures ParseFrom(Line(name, value), 0) == map[name := value] && Line(name, value) != ""
  {
    hide GoodKey, GoodValue, ParseFrom;
    NilLeft(Line(name, value));
    ParsePrintedLine(name, value, "");
    NothingParsed();
  }

  lemma ReadsLine(e: string, l: string, pos: nat)
    requires l != "" && pos <= |e| && forall k | pos <= k < |e| :: Whitespace(e[k])
    ensures ParseFrom(e + l, pos) == ParseFrom(l, 0)
  {
    hide ParseOption, Whitespace;
    var u := e + l;
    ParseSuffix(e, l, 0);
    assert forall k | pos <= k < |e| :: u[k] == e[k];
    SkipWhitespace(u, pos, |e|);
  }

  lemma NothingParsed()
    ensures ParseConfig("") == map[]
  {
  }

  /** The option at `pos` reads the same in the old and in the appended text. */
  lemma OldOptionKept(t: string, name: string, value: string, pos: nat)
    requires pos < |t| && FindIfNot(t, pos, |t|, Whitespace) < |t|
    ensures var u := Appended(t, name, value);
            && Reappears(t, pos, u, 0) && SameLine(t, pos, u, 0)
  {
    hide FindIf, FindIfNot;
    AppendedParts(t, name, value);
    var u := Appended(t, name, value);
    var begin := FindIfNot(t, pos, |t|, Whitespace);
    var endl := FindIf(t, begin, |t|, Endline);
    if endl == |t| {
      assert !Endline(t[|t| - 1]);
      assert u[|t|] == Ended(t)[|t|];
    }
  }

  /** Where the parser continues in the appended text, when the old option is closed. */
  lemma OldNextLine(t: string, name: string, value: string, endl: nat)
    requires 0 < |t| && endl <= |t|
    requires endl == |t| ==> t[|t| - 1] != '\n'
    ensures var u := Appended(t, name, value);
            if endl < |t| then NextLine(u, endl) == NextLine(t, endl) <= |Ended(t)|
            else NextLine(u, endl) == |Ended(t)|
  {
    AppendedParts(t, name, value);
  }

  /** The old text's parse extended by the new option, unless an open list swallows it. */
  lemma {:induction false} ClosedTextKept(t: string, name: string, value: string, pos: nat)
    requires GoodKey(name) && GoodValue(value)
    requires pos <= |Ended(t)| && ListsClosed(t, pos) && name !in ParseFrom(t, pos)
    ensures ParseFrom(Appended(t, name, value), pos) == ParseFrom(t, pos)[name := value]
    decreases |t| - pos
  {
    hide ParseOption, OptionClosed, Appended, Ended, GoodKey, GoodValue, NextLine, FindIfNot, Whitespace;
    AppendedParts(t, name, value);
    if OnlyBlanksLeft(t, pos) {
      BlanksLeft(t, pos);
      ReadsNewOption(t, name, value, pos);
    } else {
      var next := StepKept(t, name, value, pos);
      ClosedTextKept(t, name, value, next);
    }
  }

  /** Nothing but blanks and line ends from `pos` to the end. */
  predicate OnlyBlanksLeft(t: string, pos: nat) {
    pos >= |t| || FindIfNot(t, pos, |t|, Whitespace) == |t|
  }

  lemma BlanksLeft(t: string, pos: nat)
    requires OnlyBlanksLeft(t, pos)
    ensures ParseFrom(t, pos) == map[]
    ensures forall k | pos <= k < |Ended(t)| :: Whitespace(Ended(t)[k])
  {
    hide FindIf, FindIfNot, ToString, ListEnd, SplitFrom;
    if pos < |t| {
      BlanksParseToNothing(t, pos);
    }
    AppendedParts(t, "", "");
    assert Whitespace('\n');
    forall k | pos <= k < |Ended(t)| ensures Whitespace(Ended(t)[k]) {
      assert k < |t| ==> Ended(t)[k] == t[k];
    }
  }

  lemma BlanksParseToNothing(t: string, pos: nat)
    requires pos < |t| && FindIfNot(t, pos, |t|, Whitespace) == |t|
    ensures ParseOption(t, pos) == (|t|, None) && ParseFrom(t, pos) == map[] && OptionClosed(t, pos)
  {
    hide FindIfNot, ToString, ListEnd;
    assert FindIf(t, |t|, |t|, Endline) == |t|;
    assert EndOfEntry(t, |t|, |t|) == |t|;
    assert SplitLine(t, pos) == NoEntry(|t|);
    NoOption(t, pos);
  }

  /** One old option read from the appended text: the same entry, and the parser goes on where it did. */
  lemma StepKept(t: string, name: string, value: string, pos: nat) returns (next: nat)
    requires pos < |t| && !OnlyBlanksLeft(t, pos) && OptionClosed(t, pos)
    ensures var u := Appended(t, name, value);
            && pos < |u| && pos < next <= |Ended(t)|
            && ParseOption(u, pos) == ParseOption(t, pos)
            && NextLine(u, ParseOption(u, pos).0) == next
            && ParseFrom(t, next) == ParseFrom(t, NextLine(t, ParseOption(t, pos).0))
            && ListsClosed(t, next) == ListsClosed(t, NextLine(t, ParseOption(t, pos).0))
  {
    hide ParseOption, Appended, Ended, FindIfNot, OptionClosed, SameLine, NextLine, Reappears;
    var u := Appended(t, name, value);
    OldOptionKept(t, name, value, pos);
    OptionMoved(t, pos, u, 0);
    AppendedParts(t, name, value);
    AppendedLength(t, name, value);
    var endl := ParseOption(t, pos).0;
    EndsBeforeNewline(t, pos);
    OldNextLine(t, name, value, endl);
    NextLineAdvances(t, pos, endl);
    next := NextLine(u, endl);
    if endl == |t| {
      ParseBeyond(t, next);
      ParseBeyond(t, NextLine(t, endl));
    }
  }

  lemma AppendedLength(t: string, name: string, value: string)
    ensures |Appended(t, name, value)| > |Ended(t)| >= |t|
  {
  }

  lemma NextLineAdvances(t: string, pos: nat, endl: nat)
    requires pos < |t| && pos <= endl <= |t|
    ensures pos < NextLine(t, endl)
    ensures endl == |t| ==> NextLine(t, endl) == |t|
  {
  }

  lemma ParseBeyond(t: string, pos: nat)
    requires pos >= |t|
    ensures ParseFrom(t, pos) == map[] && ListsClosed(t, pos)
  {
  }

  /** An entry that reaches the end of the text does not end with a newline. */
  lemma EndsBeforeNewline(t: string, pos: nat)
    requires pos < |t| && !OnlyBlanksLeft(t, pos) && OptionClosed(t, pos)
    ensures ParseOption(t, pos).0 == |t| ==> t[|t| - 1] != '\n'
  {
    hide FindIf, FindIfNot, ToString, ListEnd, SplitFrom;
    var s := SplitLine(t, pos);
    var begin := FindIfNot(t, pos, |t|, Whitespace);
    assert s.endl == FindIf(t, begin, |t|, Endline);
    if s.NoEntry? {
      NoOption(t, pos);
    } else if t[s.beginVal] == '[' {
      ListOption(t, pos);
      ClosedListEndsWithBracket(t, s.beginVal + 1, 1);
    } else {
      LineOption(t, pos);
    }
  }

  lemma {:induction false} ClosedListEndsWithBracket(t: string, i: nat, stack: nat)
    requires i <= |t| && stack > 0 && ListEnd(t, i, stack).1 == 0
    ensures var close := ListEnd(t, i, stack).0; close > i && t[close - 1] == ']'
    decreases |t| - i
  {
    if i < |t| {
      var stack' := if t[i] == '[' then stack + 1 else if t[i] == ']' then stack - 1 else stack;
      if stack' > 0 {
        ClosedListEndsWithBracket(t, i + 1, stack');
      }
    }
  }

  // ----- Open lists -----

  lemma {:induction false} SkipPlain(u: string, i: nat, j: nat, stack: nat)
    requires i <= j <= |u| && stack > 0 && forall k | i <= k < j :: u[k] != '[' && u[k] != ']'
    ensures ListEnd(u, i, stack) == ListEnd(u, j, stack)
    decreases j - i
  {
    if i == j {
    } else {
      SkipPlain(u, i + 1, j, stack);
    }
  }

  /** A closed list inside an open one: the scan of the outer list goes on behind it. */
  lemma {:induction false} SkipNested(v: string, i: nat, inner: nat, u: string, d: nat, outer: nat)
    requires i <= |v| && d + |v| <= |u| && forall k | i <= k < |v| :: u[d + k] == v[k]
    requires ListEnd(v, i, inner) == (|v|, 0) && outer > 0
    ensures ListEnd(u, d + i, inner + outer) == ListEnd(u, d + |v|, outer)
    decreases |v| - i
  {
    if i == |v| || inner == 0 {
    } else {
      SkipNested(v, i + 1, if v[i] == '[' then inner + 1 else if v[i] == ']' then inner - 1 else inner, u, d, outer);
    }
  }

  lemma {:induction false} ToStringLength(t: string, i: nat, end: nat)
    requires i <= end <= |t|
    ensures |ToString(t, i, end)| <= end - i
    decreases end - i
  {
    if i == end {
    } else {
      hide FindIf;
      var comment := FindIf(t, i, end, IsHash);
      var endl := FindIf(t, comment, end, Endline);
      ToStringStep(t, i, end);
      ToStringLength(t, endl, end);
    }
  }

  /** Whole lines without comments at the end of a text are copied. */
  lemma {:induction false} ToStringKeepsEnd(t: string, i: nat, j: nat, end: nat)
    requires i <= j <= end <= |t| && (j == i || Endline(t[j - 1]))
    requires forall k | j <= k < end :: t[k] != '#'
    ensures |ToString(t, i, end)| >= end - j
    decreases end - i
  {
    if i == end {
    } else {
      var comment := FindIf(t, i, end, IsHash);
      var endl := FindIf(t, comment, end, Endline);
      ToStringStep(t, i, end);
      if comment < j {
        ToStringKeepsEnd(t, endl, j, end);
      } else {
        ToStringNothing(t, end);
      }
    }
  }

  /** The value of an option is shorter than the text it is read from, by a name and `=` at least. */
  lemma OptionLength(t: string, pos: nat)
    requires pos <= |t|
    ensures var e := ParseOption(t, pos).1; e.Some? ==> |e.value.1| + 2 <= |t| - pos
  {
    hide FindIf, FindIfNot, ToString, ListEnd, SplitFrom, SplitLine;
    var s := SplitLine(t, pos);
    if s.Split? {
      var close := ListEnd(t, s.beginVal + 1, 1).0;
      ToStringLength(t, s.beginVal, close);
      ToStringLength(t, s.beginVal, s.endl);
    }
  }

  lemma {:induction false} ShortValues(t: string, pos: nat, n: nat)
    requires |t| <= pos + n + 1
    ensures forall k | k in ParseFrom(t, pos) :: |ParseFrom(t, pos)[k]| < n
    decreases |t| - pos
  {
    hide ParseOption;
    if pos >= |t| {
    } else {
      OptionLength(t, pos);
      ShortValues(t, NextLine(t, ParseOption(t, pos).0), n);
    }
  }

  /** Where the appended line and its value lie. */
  lemma AppendedPlaces(t: string, name: string, value: string)
    requires NoBrackets(name) && t != ""
    ensures var u, e := Appended(t, name, value), |Ended(t)|;
            var v := e + |name| + 3;
            && |u| == v + |value| + 1 && u[v + |value|] == '\n' && Endline(u[e - 1])
            && (forall k | 0 <= k < |value| :: u[v + k] == value[k])
            && (forall k | |t| <= k < v :: u[k] != '[' && u[k] != ']')
            && ('#' !in name && '#' !in value ==> forall k | e <= k < |u| :: u[k] != '#')
  {
    var l := Line(name, value);
    assert l == name + " = " + value + "\n";
    var e := Ended(t);
    var u := e + l;
    assert u == Appended(t, name, value) by { AppendedParts(t, name, value); }
    assert forall k | |e| <= k < |u| :: u[k] == l[k - |e|];
    assert forall k | 0 <= k < |name| :: l[k] == name[k];
    assert forall k | 0 <= k < |value| :: l[|name| + 3 + k] == value[k];
    assert l[|name|] == ' ' && l[|name| + 1] == '=' && l[|name| + 2] == ' ' && l[|name| + 3 + |value|] == '\n';
    assert forall k | |t| <= k < |e| :: u[k] == '\n';
    assert u[|e| - 1] == e[|e| - 1] == '\n';
  }

  /** Where a list that the old text leaves open ends in the appended text: at the very end, or inside a value that is no list. */
  lemma OpenListEnd(t: string, name: string, value: string, stack: nat)
    requires NoBrackets(name) && GoodValue(value) && t != "" && stack > 0
    ensures var u, v := Appended(t, name, value), |Ended(t)| + |name| + 3;
            && |t| < v < |u|
            && (if value[0] == '[' then ListEnd(u, |t|, stack).0 == |u| else ListEnd(u, |t|, stack).0 > v)
  {
    hide Appended, Ended, ListEnd;
    var u, v := Appended(t, name, value), |Ended(t)| + |name| + 3;
    AppendedParts(t, name, value);
    AppendedPlaces(t, name, value);
    SkipPlain(u, |t|, v, stack);
    if value[0] == '[' {
      ListStep(u, v, stack);
      SkipNested(value, 1, 1, u, v, stack);
      SkipPlain(u, v + |value|, |u|, stack);
      ListEndStops(u, |u|, stack);
    } else {
      ListEndAdvances(u, v, stack);
    }
  }

  lemma ListStep(u: string, i: nat, stack: nat)
    requires i < |u| && u[i] == '[' && stack > 0
    ensures ListEnd(u, i, stack) == ListEnd(u, i + 1, stack + 1)
  {
  }

  /**
    A list left open swallows the appended option: it is read as part of another value, which
    is not the new one, and what remains behind it is too short to hold the new value.
   */
  lemma OpenListSwallows(t: string, name: string, value: string, pos: nat)
    requires GoodKey(name) && NoBrackets(name) && GoodValue(value)
    requires pos < |t| && !OptionClosed(t, pos)
    ensures var u := Appended(t, name, value);
            var (endl, e) := ParseOption(u, pos);
            && pos < |u| && e.Some? && e.value.1 != value
            && |u| <= NextLine(u, endl) + |value| + 1
  {
    hide FindIf, FindIfNot, ToString, ListEnd, SplitFrom, Appended, Ended, SameLine, SplitLine, Reappears;
    var u := Appended(t, name, value);
    var s := SplitLine(t, pos);
    NotOnlyBlanks(t, pos);
    OldOptionKept(t, name, value, pos);
    SplitMoved(t, pos, u, 0);
    AppendedParts(t, name, value);
    AppendedPlaces(t, name, value);
    ListEndMoved(t, s.beginVal + 1, 1, u, 0);
    OpenListEnd(t, name, value, ListEnd(t, s.beginVal + 1, 1).1);
    ListOption(u, pos);
    var close := ListEnd(u, s.beginVal + 1, 1).0;
    OpenListValue(t, name, value, s.beginVal, close);
  }

  lemma OpenListValue(t: string, name: string, value: string, beginVal: nat, close: nat)
    requires GoodKey(name) && NoBrackets(name) && GoodValue(value) && beginVal < |t|
    requires var u := Appended(t, name, value);
             beginVal < close <= |u| && u[beginVal] == '[' && (value[0] == '[' ==> close == |u|)
    ensures ToString(Appended(t, name, value), beginVal, close) != value
  {
    hide ToString, Appended, Ended, ListEnd;
    var u := Appended(t, name, value);
    AppendedParts(t, name, value);
    AppendedPlaces(t, name, value);
    if value[0] == '[' {
      ToStringKeepsEnd(u, beginVal, |Ended(t)|, |u|);
    } else {
      ToStringPrefix(u, beginVal, beginVal + 1, close);
      assert u[beginVal..beginVal + 1][0] == '[';
    }
  }

  lemma NotOnlyBlanks(t: string, pos: nat)
    requires pos < |t| && !OptionClosed(t, pos)
    ensures FindIfNot(t, pos, |t|, Whitespace) < |t|
  {
    hide FindIfNot, ListEnd;
    if FindIfNot(t, pos, |t|, Whitespace) == |t| {
      BlanksParseToNothing(t, pos);
    }
  }

  lemma BlanksAreClosed(t: string, pos: nat)
    requires OnlyBlanksLeft(t, pos)
    ensures ListsClosed(t, pos)
  {
    hide ParseOption, OptionClosed, FindIfNot;
    if pos < |t| {
      BlanksParseToNothing(t, pos);
      ParseBeyond(t, |t|);
    }
  }

  /** With an open list the new name does not get its value. */
  lemma {:induction false} OpenTextLosesOption(t: string, name: string, value: string, pos: nat)
    requires GoodKey(name) && NoBrackets(name) && GoodValue(value)
    requires pos <= |Ended(t)| && !ListsClosed(t, pos) && name !in ParseFrom(t, pos)
    ensures var m := ParseFrom(Appended(t, name, value), pos); name !in m || m[name] != value
    decreases |t| - pos
  {
    hide ParseOption, OptionClosed, Appended, Ended, NextLine, FindIfNot, Whitespace, GoodValue, GoodKey;
    if !OptionClosed(t, pos) {
      var u := Appended(t, name, value);
      OpenListSwallows(t, name, value, pos);
      ShortValues(u, NextLine(u, ParseOption(u, pos).0), |value|);
    } else if OnlyBlanksLeft(t, pos) {
      BlanksAreClosed(t, pos);
      assert false;
    } else {
      var next := StepKept(t, name, value, pos);
      OpenTextLosesOption(t, name, value, next);
    }
  }

  /**
    Appending a new option to a configuration file adds exactly that option, whatever the old
    text looks like at its end and whatever brackets the value contains, if and only if the
    old text leaves no list open.
   */
  lemma AppendExactly(t: string, name: string, value: string)
    requires GoodKey(name) && NoBrackets(name) && GoodValue(value)
    requires name !in ParseConfig(t)
    ensures ParseConfig(Appended(t, name, value)) == ParseConfig(t)[name := value] <==> ListsClosed(t, 0)
  {
    hide ParseFrom, ListsClosed, Appended, Ended, GoodKey;
    if ListsClosed(t, 0) {
      ClosedTextKept(t, name, value, 0);
    } else {
      OpenTextLosesOption(t, name, value, 0);
    }
  }

  // ----- A name with brackets -----

  /** One line, located by its parts. */
  lemma LineAt(t: string, pos: nat, begin: nat, endl: nat, eq: nat)
    requires pos <= begin < endl <= |t| && begin <= eq <= endl
    requires (forall k | pos <= k < begin :: Whitespace(t[k])) && !Whitespace(t[begin]) && !Whitespace(t[endl - 1])
    requires forall k | begin <= k < endl :: !Endline(t[k]) && t[k] != '#'
    requires (endl < |t| ==> Endline(t[endl])) && (forall k | begin <= k < eq :: t[k] != '=') && (eq < endl ==> t[eq] == '=')
    ensures eq == begin || eq == endl ==> ParseOption(t, pos) == (endl, None)
    ensures begin < eq < endl ==>
              SplitLine(t, pos) == (var v := FindIfNot(t, eq + 1, endl, SpaceTab);
                                    if v == endl then NoEntry(endl) else Split(begin, endl, TrimEnd(t, begin, eq, SpaceTab), v))
  {
    FindIfNotIs(t, pos, |t|, Whitespace, begin);
    FindIfIs(t, begin, |t|, Endline, endl);
    FindIfIs(t, begin, endl, IsHash, endl);
    TrimEndIs(t, begin, endl, Whitespace, endl);
    FindIfIs(t, begin, endl, IsEquals, eq);
    hide FindIf, FindIfNot, TrimEnd, ToString, ListEnd;
    assert EndOfEntry(t, begin, endl) == endl;
  }

  lemma ListFromNameReads(t: string)
    requires t == "a] = ["
    ensures !ListsClosed(t, 0) && ParseConfig(t) == map[]
  {
    LineAt(t, 0, 0, 6, 3);
    TrimEndIs(t, 0, 3, SpaceTab, 2);
    FindIfNotIs(t, 4, 6, SpaceTab, 5);
    ListEndStops(t, 6, 1);
    hide FindIf, FindIfNot, TrimEnd, ToString, SplitLine;
    assert ParseOption(t, 0) == (6, None);
    ParseBeyond(t, 6);
    hide ParseOption;
  }

  lemma SwallowingOption(u: string)
    requires u == "a] = [\na] = [\na]\n"
    ensures ParseOption(u, 0) == (9, Some(("a]", "[\na]")))
  {
    hide FindIf, FindIfNot, TrimEnd, ToString, SplitLine, ParseOption, ListEnd;
    LineAt(u, 0, 0, 6, 3);
    TrimEndIs(u, 0, 3, SpaceTab, 2);
    FindIfNotIs(u, 4, 6, SpaceTab, 5);
    SkipPlain(u, 6, 8, 1);
    ListCloses(u, 8);
    ToStringPlain(u, 0, 2);
    ToStringPlain(u, 5, 9);
    assert u[0..2] == "a]" && u[5..9] == "[\na]";
    ListOption(u, 0);
  }

  lemma ListCloses(u: string, i: nat)
    requires i < |u| && u[i] == ']'
    ensures ListEnd(u, i, 1) == (i + 1, 0)
  {
    ListEndStops(u, i + 1, 0);
  }

  lemma ListFromNameSwallowed(u: string)
    requires u == "a] = [\na] = [\na]\n"
    ensures ParseFrom(u, 0) == map["a]" := "[\na]"]
  {
    hide FindIf, FindIfNot, TrimEnd, ToString, SplitLine, ParseOption, ListEnd;
    SwallowingOption(u);
    LineAt(u, 10, 10, 13, 10);
    LineAt(u, 14, 14, 16, 16);
    ParseBeyond(u, 17);
    assert ParseFrom(u, 14) == ParseFrom(u, 17);
    assert ParseFrom(u, 10) == ParseFrom(u, 14);
  }

  lemma BracketNameAppended(t: string, name: string, value: string)
    requires t == "a] = [" && name == "a]" && value == "[\na]"
    ensures Appended(t, name, value) == "a] = [\na] = [\na]\n"
  {
  }

  /** A name with a bracket can close the open list itself: this option is added although the old text is open. */
  lemma BracketNameEscapes(t: string, name: string, value: string)
    requires t == "a] = [" && name == "a]" && value == "[\na]"
    ensures !ListsClosed(t, 0) && ParseConfig(t) == map[]
    ensures ParseConfig(Appended(t, name, value)) == map[name := value]
  {
    hide ParseFrom, Appended, ListsClosed;
    ListFromNameReads(t);
    BracketNameAppended(t, name, value);
    ListFromNameSwallowed(Appended(t, name, value));
  }
}
