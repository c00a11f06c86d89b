/**
  Printing and reparsing a configuration: exactly which entries survive, and that nothing
  else changes.
 */
module ConfigRoundTrip {
  import opened Options
  import opened ConfigSpec
  import opened ConfigLaws
  import opened Lists

  /** Either one line that starts with something other than a blank or `[`, or a list whose bracket closes at the very end. */
  predicate GoodValue(v: string) {
    && v != "" && '#' !in v
    && if v[0] == '[' then ListEnd(v, 1, 1) == (|v|, 0)
       else !SpaceTab(v[0]) && forall i | 0 <= i < |v| :: !Endline(v[i])
  }

  // ----- One printed line -----

  /** The characters of a printed line. */
  lemma LineChars(k: string, v: string, rest: string)
    ensures var t, n := Line(k, v) + rest, |k|;
            && |t| == n + 4 + |v| + |rest|
            && (forall i | 0 <= i < n :: t[i] == k[i])
            && t[n] == ' ' && t[n + 1] == '=' && t[n + 2] == ' '
            && (forall i | 0 <= i < |v| :: t[n + 3 + i] == v[i])
            && t[n + 3 + |v|] == '\n'
  {
  }

  /**
    For a good key the parser finds the name, and a value that starts at the blank after `=`
    (nothing but blanks before the comment or line end) or at the first non-blank after it.
   */
  lemma LineSplit(k: string, v: string, rest: string)
    requires GoodKey(k)
    ensures var t, s, n := Line(k, v) + rest, SplitLine(Line(k, v) + rest, 0), |k|;
            && s.Split? && s.begin == 0 && s.endName == n
            && n + 3 <= s.endl <= n + 3 + |v| && Endline(t[s.endl])
            && (forall i | 0 <= i < s.endl :: !Endline(t[i]))
            && (forall i | n + 2 <= i < s.beginVal :: SpaceTab(t[i]))
            && (if s.beginVal == n + 2 then Whitespace(t[n + 3]) || t[n + 3] == '#' else !SpaceTab(t[s.beginVal]))
  {
    hide FindIf, FindIfNot, TrimEnd, Line;
    var t, n := Line(k, v) + rest, |k|;
    LineChars(k, v, rest);
    assert t[0] == k[0] && !Whitespace(t[0]);
    FindIfNotIs(t, 0, |t|, Whitespace, 0);
    var endl := FindIf(t, 0, |t|, Endline);
    LineEnd(k, v, t, endl);
    hide Whitespace, Endline;
    LineParts(k, t, endl);
  }

  lemma LineEnd(k: string, v: string, t: string, endl: nat)
    requires GoodKey(k) && |t| > |k| + 3 + |v|
    requires forall i | 0 <= i < |k| :: t[i] == k[i]
    requires t[|k|] == ' ' && t[|k| + 1] == '=' && t[|k| + 2] == ' ' && t[|k| + 3 + |v|] == '\n'
    requires endl == FindIf(t, 0, |t|, Endline)
    ensures |k| + 3 <= endl <= |k| + 3 + |v| && Endline(t[endl])
  {
    hide FindIf;
    assert Endline(t[|k| + 3 + |v|]);
    assert forall i | 0 <= i < |k| :: !Endline(t[i]);
  }

  lemma LineParts(k: string, t: string, endl: nat)
    requires GoodKey(k) && |k| + 3 <= endl < |t| && Endline(t[endl])
    requires forall i | 0 <= i < |k| :: t[i] == k[i]
    requires t[|k|] == ' ' && t[|k| + 1] == '=' && t[|k| + 2] == ' '
    requires forall i | 0 <= i < endl :: !Endline(t[i])
    ensures !Whitespace(t[0])
    ensures var s, n := SplitFrom(t, 0, endl), |k|;
            && s.Split? && s.endName == n
            && (forall i | n + 2 <= i < s.beginVal :: SpaceTab(t[i]))
            && (if s.beginVal == n + 2 then Whitespace(t[n + 3]) || t[n + 3] == '#' else !SpaceTab(t[s.beginVal]))
  {
    hide FindIf, FindIfNot, TrimEnd;
    var n := |k|;
    var hash := FindIf(t, 0, endl, IsHash);
    assert forall i | 0 <= i < n + 3 :: t[i] != '#';
    assert hash >= n + 3;
    var endc := EndOfEntry(t, 0, endl);
    assert endc == TrimEnd(t, 0, hash, Whitespace);
    assert endc >= n + 2 by {
      assert !Whitespace(t[n + 1]);
    }
    FindIfIs(t, 0, endc, IsEquals, n + 1);
    assert t[n - 1] == k[n - 1];
    TrimEndIs(t, 0, n + 1, SpaceTab, n);
    var beginVal := FindIfNot(t, n + 2, endc, SpaceTab);
    if endc == n + 2 {
      assert hash > n + 3 ==> Whitespace(t[n + 3]);
    } else {
      assert !Whitespace(t[endc - 1]);
      assert n + 2 < beginVal < endc;
    }
  }

  /** The value read back from one printed line, whatever follows it. */
  lemma LineReadBack(k: string, v: string, rest: string)
    requires GoodKey(k)
    ensures var t := Line(k, v) + rest;
            var (next, e) := ParseOption(t, 0);
            && e.Some? && e.value.0 == k
            && (e.value.1 == v <==> GoodValue(v))
            && (GoodValue(v) ==> next == |k| + 3 + |v|)
  {
    hide *;
    var t := Line(k, v) + rest;
    LineSplit(k, v, rest);
    LineChars(k, v, rest);
    NameReadBack(k, t);
    var s := SplitLine(t, 0);
    if t[s.beginVal] == '[' {
      ListOption(t, 0);
      MakeLocated(k, v, rest, s.beginVal, s.endl);
      ListReadBack(k, v, t, s.beginVal, s.endl);
    } else {
      LineOption(t, 0);
      MakeLocated(k, v, rest, s.beginVal, s.endl);
      ValueReadBack(k, v, t, s.beginVal, s.endl);
    }
  }

  lemma NameReadBack(k: string, t: string)
    requires GoodKey(k) && |k| <= |t|
    requires forall i | 0 <= i < |k| :: t[i] == k[i]
    ensures ToString(t, 0, |k|) == k
  {
    assert forall i | 0 <= i < |k| :: t[i] != '#';
    ToStringPlain(t, 0, |k|);
    assert t[0..|k|] == k;
  }

  /** What is known of the located value. */
  ghost predicate Located(k: string, v: string, t: string, beginVal: nat, endl: nat) {
    var n := |k|;
    && |t| > n + 3 + |v|
    && t[n + 2] == ' ' && t[n + 3 + |v|] == '\n'
    && (forall i | 0 <= i < |v| :: t[n + 3 + i] == v[i])
    && n + 2 <= beginVal < endl <= n + 3 + |v| && Endline(t[endl])
    && (forall i | 0 <= i < endl :: !Endline(t[i]))
    && (forall i | n + 2 <= i < beginVal :: SpaceTab(t[i]))
    && (if beginVal == n + 2 then Whitespace(t[n + 3]) || t[n + 3] == '#' else !SpaceTab(t[beginVal]))
  }

  lemma MakeLocated(k: string, v: string, rest: string, beginVal: nat, endl: nat)
    requires GoodKey(k)
    requires var s := SplitLine(Line(k, v) + rest, 0); s.Split? && s.beginVal == beginVal && s.endl == endl
    ensures Located(k, v, Line(k, v) + rest, beginVal, endl)
  {
    LineSplit(k, v, rest);
    LineChars(k, v, rest);
    hide SplitLine, Line, GoodKey, SpaceTab, Whitespace, Endline;
  }

  /** A good value starts right after the blank; if it is not a list it ends with the line. */
  lemma GoodValuePlace(k: string, v: string, t: string, beginVal: nat, endl: nat)
    requires Located(k, v, t, beginVal, endl) && GoodValue(v)
    ensures beginVal == |k| + 3 && t[beginVal] == v[0]
    ensures v[0] != '[' ==> endl == |k| + 3 + |v|
  {
    hide ListEnd;
    var n := |k|;
    assert t[n + 3] == v[0] && v[0] in v;
    assert forall i | n + 3 <= i < n + 3 + |v| :: t[i] == v[i - n - 3];
  }

  lemma NoComment(k: string, v: string, t: string, i: nat, end: nat)
    requires |t| > |k| + 3 + |v| && t[|k| + 2] == ' ' && t[|k| + 3 + |v|] == '\n'
    requires forall j | 0 <= j < |v| :: t[|k| + 3 + j] == v[j]
    requires '#' !in v && |k| + 2 <= i <= end <= |k| + 4 + |v|
    ensures forall j | i <= j < end :: t[j] != '#'
  {
    forall j | i <= j < end ensures t[j] != '#' {
      if |k| + 3 <= j < |k| + 3 + |v| {
        assert t[j] == v[j - |k| - 3];
      }
    }
  }

  lemma ValueReadBack(k: string, v: string, t: string, beginVal: nat, endl: nat)
    requires Located(k, v, t, beginVal, endl) && t[beginVal] != '['
    ensures ToString(t, beginVal, endl) == v <==> GoodValue(v)
    ensures GoodValue(v) ==> endl == |k| + 3 + |v|
  {
    hide ToString, ListEnd;
    if GoodValue(v) {
      GoodValuePlace(k, v, t, beginVal, endl);
      NoComment(k, v, t, beginVal, endl);
      ToStringPlain(t, beginVal, endl);
      assert t[beginVal..endl] == v;
    } else if ToString(t, beginVal, endl) == v {
      ToStringNoHash(t, beginVal, endl);
      ReadValueIsGood(k, v, t, beginVal, endl);
    }
  }

  lemma ReadValueIsGood(k: string, v: string, t: string, beginVal: nat, endl: nat)
    requires Located(k, v, t, beginVal, endl) && t[beginVal] != '['
    requires ToString(t, beginVal, endl) == v && '#' !in v
    ensures GoodValue(v)
  {
    hide ToString, ListEnd;
    var n := |k|;
    NoComment(k, v, t, beginVal, endl);
    ToStringPlain(t, beginVal, endl);
    assert forall i | 0 <= i < |v| :: v[i] == t[beginVal + i] && !Endline(v[i]);
    forall i | n + 3 <= i < n + 3 + |v| ensures !Endline(t[i]) {
      assert t[i] == v[i - n - 3];
    }
    assert endl == n + 3 + |v|;
  }

  lemma ListReadBack(k: string, v: string, t: string, beginVal: nat, endl: nat)
    requires Located(k, v, t, beginVal, endl) && t[beginVal] == '['
    ensures var close := ListEnd(t, beginVal + 1, 1).0;
            && beginVal + 1 < |t|
            && (ToString(t, beginVal, close) == v <==> GoodValue(v))
            && (GoodValue(v) ==> close == |k| + 3 + |v|)
  {
    hide ToString, ListEnd, Located, GoodValue;
    assert beginVal + 1 < |t| by { LocatedInside(k, v, t, beginVal, endl); }
    var close := ListEnd(t, beginVal + 1, 1).0;
    if GoodValue(v) {
      GoodListReadBack(k, v, t, beginVal, endl);
    } else if ToString(t, beginVal, close) == v {
      ReadListIsGood(k, v, t, beginVal, endl);
    }
  }

  lemma LocatedInside(k: string, v: string, t: string, beginVal: nat, endl: nat)
    requires Located(k, v, t, beginVal, endl)
    ensures beginVal + 1 < |t|
  {
  }

  lemma GoodListReadBack(k: string, v: string, t: string, beginVal: nat, endl: nat)
    requires Located(k, v, t, beginVal, endl) && t[beginVal] == '[' && GoodValue(v)
    ensures beginVal + 1 < |t| && ListEnd(t, beginVal + 1, 1).0 == |k| + 3 + |v|
    ensures ToString(t, beginVal, |k| + 3 + |v|) == v
  {
    hide *;
    GoodValuePlace(k, v, t, beginVal, endl);
    LocatedChars(k, v, t, beginVal, endl);
    GoodListFacts(v);
    NoComment(k, v, t, beginVal, beginVal + |v|);
    ToStringPlain(t, beginVal, beginVal + |v|);
    EmbeddedList(v, t, beginVal);
  }

  lemma LocatedChars(k: string, v: string, t: string, beginVal: nat, endl: nat)
    requires Located(k, v, t, beginVal, endl)
    ensures |t| > |k| + 3 + |v| && t[|k| + 2] == ' ' && t[|k| + 3 + |v|] == '\n'
    ensures forall i | 0 <= i < |v| :: t[|k| + 3 + i] == v[i]
    ensures |k| + 2 <= beginVal < endl <= |k| + 3 + |v|
  {
  }

  lemma GoodListFacts(v: string)
    requires GoodValue(v)
    ensures v != "" && '#' !in v && (v[0] == '[' ==> ListEnd(v, 1, 1) == (|v|, 0))
  {
  }

  /** A closed list inside a text ends where it ends on its own. */
  lemma EmbeddedList(v: string, t: string, d: nat)
    requires v != "" && d + |v| <= |t| && forall i | 0 <= i < |v| :: t[d + i] == v[i]
    ensures t[d..d + |v|] == v
    ensures ListEnd(v, 1, 1) == (|v|, 0) ==> ListEnd(t, d + 1, 1).0 == d + |v|
  {
    hide ListEnd;
    ListEndMoved(v, 1, 1, t, d);
    ListEndStops(t, d + |v|, 0);
  }

  lemma ReadListIsGood(k: string, v: string, t: string, beginVal: nat, endl: nat)
    requires Located(k, v, t, beginVal, endl) && t[beginVal] == '[' && beginVal + 1 < |t|
    requires ToString(t, beginVal, ListEnd(t, beginVal + 1, 1).0) == v
    ensures GoodValue(v)
  {
    hide ToString, ListEnd;
    var n := |k|;
    var (close, stack) := ListEnd(t, beginVal + 1, 1);
    ToStringNoHash(t, beginVal, close);
    ToStringPrefix(t, beginVal, beginVal + 1, close);
    assert t[beginVal..beginVal + 1][0] == '[' && v[0] == '[';
    assert t[n + 3] == v[0];
    assert beginVal == n + 3;
    if close > n + 3 + |v| {
      NoComment(k, v, t, n + 3, n + 4 + |v|);
      ToStringPrefix(t, n + 3, n + 4 + |v|, close);
      assert false;
    }
    NoComment(k, v, t, n + 3, close);
    ToStringPlain(t, n + 3, close);
    assert close == n + 3 + |v|;
    ListEndMoved(v, 1, 1, t, n + 3);
    var r := ListEnd(v, 1, 1);
    ListEndStops(t, r.0 + n + 3, r.1);
    if r.1 != 0 {
      ListEndAdvances(t, n + 3 + |v|, r.1);
    }
  }

  lemma ListEndAdvances(t: string, i: nat, stack: nat)
    requires i < |t| && stack != 0
    ensures ListEnd(t, i, stack).0 > i
  {
  }

  // ----- Whole configurations -----

  function MapOf(es: seq<Entry>): map<string, string> {
    if es == [] then map[] else MapOf(es[1..])[es[0].0 := es[0].1]
  }

  predicate DistinctKeys(es: seq<Entry>) {
    forall i, j | 0 <= i < j < |es| :: es[i].0 != es[j].0
  }

  predicate GoodEntry(e: Entry) {
    GoodKey(e.0) && GoodValue(e.1)
  }

  lemma ParsePrintedLine(k: string, v: string, rest: string)
    requires GoodKey(k)
    ensures var m := ParseConfig(Line(k, v) + rest);
            && k in m && (m[k] == v <==> GoodValue(v))
            && (GoodValue(v) ==> m == ParseConfig(rest)[k := v])
  {
    hide GoodKey, GoodValue, ParseOption;
    var t := Line(k, v) + rest;
    LineReadBack(k, v, rest);
    LineChars(k, v, rest);
    if GoodValue(v) {
      var l := Line(k, v);
      assert t[|k| + 3 + |v|] == '\n' && |l| == |k| + 4 + |v|;
      ParseSuffix(l, rest, 0);
    }
  }

  lemma {:induction false} MapOfContains(es: seq<Entry>, i: nat)
    requires DistinctKeys(es) && i < |es|
    ensures es[i].0 in MapOf(es) && MapOf(es)[es[i].0] == es[i].1
  {
    if i == 0 {
    } else {
      MapOfContains(es[1..], i - 1);
    }
  }

  /** An entry that is not good is not read back: its name is lost or its value changed. */
  lemma {:induction false} BadEntryIsLost(es: seq<Entry>, i: nat)
    requires DistinctKeys(es) && i < |es| && !GoodEntry(es[i])
    requires forall j | 0 <= j < i :: GoodEntry(es[j])
    ensures var m := ParseConfig(Print(es)); es[i].0 !in m || m[es[i].0] != es[i].1
  {
    hide GoodKey, GoodValue, ParseConfig, Line;
    var k, v := es[0].0, es[0].1;
    if GoodKey(k) {
      ParsePrintedLine(k, v, Print(es[1..]));
      if i > 0 {
        BadEntryIsLost(es[1..], i - 1);
      }
    } else {
      KeysOfConfigAreGood(Print(es), k);
    }
  }

  lemma KeysOfConfigAreGood(t: string, k: string)
    ensures k in ParseConfig(t) ==> GoodKey(k)
  {
    hide GoodKey, ParseFrom;
    if k in ParseConfig(t) {
      ParsedKeysAreGood(t, 0, k);
    }
  }

  lemma {:induction false} GoodEntriesSurvive(es: seq<Entry>)
    requires forall i | 0 <= i < |es| :: GoodEntry(es[i])
    ensures ParseConfig(Print(es)) == MapOf(es)
  {
    if es == [] {
    } else {
      hide GoodKey, GoodValue, ParseConfig, Line;
      GoodEntriesSurvive(es[1..]);
      ParsePrintedLine(es[0].0, es[0].1, Print(es[1..]));
    }
  }

  /**
    Writing a configuration and reading it back gives the same configuration, for every
    order in which the entries are written, exactly when every entry is good.
   */
  lemma RoundTripExactly(es: seq<Entry>)
    requires DistinctKeys(es)
    ensures ParseConfig(Print(es)) == MapOf(es) <==> forall i | 0 <= i < |es| :: GoodEntry(es[i])
  {
    hide ParseConfig, Print, GoodEntry, MapOf;
    if forall i | 0 <= i < |es| :: GoodEntry(es[i]) {
      GoodEntriesSurvive(es);
    } else {
      var i := FirstBad(es, 0);
      BadEntryIsLost(es, i);
      MapOfContains(es, i);
    }
  }

  lemma {:induction false} FirstBad(es: seq<Entry>, start: nat) returns (i: nat)
    requires start <= |es| && exists j :: start <= j < |es| && !GoodEntry(es[j])
    ensures start <= i < |es| && !GoodEntry(es[i]) && forall j | start <= j < i :: GoodEntry(es[j])
    decreases |es| - start
  {
    hide GoodEntry;
    if !GoodEntry(es[start]) {
      i := start;
    } else {
      i := FirstBad(es, start + 1);
    }
  }

  /** An enumeration of a map. */
  predicate Enumerates(es: seq<Entry>, m: map<string, string>) {
    DistinctKeys(es) && MapOf(es) == m
  }

  /** Saving what was read changes it exactly when a value is not one a single line or closed list can hold. */
  lemma SavingKeepsConfig(t: string, es: seq<Entry>)
    requires Enumerates(es, ParseConfig(t))
    ensures ParseConfig(Print(es)) == ParseConfig(t) <==> forall i | 0 <= i < |es| :: GoodValue(es[i].1)
  {
    hide ParseConfig, Print, MapOf, GoodKey, GoodValue;
    RoundTripExactly(es);
    forall i | 0 <= i < |es| ensures GoodKey(es[i].0) {
      MapOfContains(es, i);
      KeysOfConfigAreGood(t, es[i].0);
    }
    assert forall i | 0 <= i < |es| :: GoodEntry(es[i]) <==> GoodValue(es[i].1);
  }

  /** A value of blanks grows by one blank every time it is saved. */
  lemma BlankValueGrows(k: string, v: string)
    requires GoodKey(k) && forall i | 0 <= i < |v| :: SpaceTab(v[i])
    ensures ParseConfig(Line(k, v)) == map[k := " " + v]
  {
    hide GoodKey, ParseOption, FindIf, FindIfNot;
    var t := Line(k, v);
    NilLeft(t);
    BlankLine(k, v);
    assert t[|k| + 3 + |v|] == '\n';
    assert ParseFrom(t, |t|) == map[];
  }

  lemma BlankLine(k: string, v: string)
    requires GoodKey(k) && forall i | 0 <= i < |v| :: SpaceTab(v[i])
    ensures ParseOption(Line(k, v), 0) == (|k| + 3 + |v|, Some((k, " " + v)))
  {
    hide *;
    BlankSplit(k, v);
    BlankText(k, v);
    LineOption(Line(k, v), 0);
  }

  lemma BlankSplit(k: string, v: string)
    requires GoodKey(k) && forall i | 0 <= i < |v| :: SpaceTab(v[i])
    ensures SplitLine(Line(k, v), 0) == Split(0, |k| + 3 + |v|, |k|, |k| + 2)
  {
    hide *;
    NilLeft(Line(k, v));
    LineSplit(k, v, "");
    var s := SplitLine(Line(k, v), 0);
    MakeLocated(k, v, "", s.beginVal, s.endl);
    BlankPlace(k, v, Line(k, v), s.beginVal, s.endl);
  }

  lemma BlankText(k: string, v: string)
    requires GoodKey(k) && forall i | 0 <= i < |v| :: SpaceTab(v[i])
    ensures var t, n := Line(k, v), |k|;
            && |t| == n + 4 + |v| && t[n + 2] == ' '
            && ToString(t, 0, n) == k && ToString(t, n + 2, n + 3 + |v|) == " " + v
  {
    hide *;
    NilLeft(Line(k, v));
    LineChars(k, v, "");
    NameReadBack(k, Line(k, v));
    BlankValue(Line(k, v), |k| + 2, v);
  }

  lemma BlankValue(t: string, i: nat, v: string)
    requires forall j | 0 <= j < |v| :: SpaceTab(v[j])
    requires i + 1 + |v| <= |t| && t[i] == ' ' && forall j | 0 <= j < |v| :: t[i + 1 + j] == v[j]
    ensures ToString(t, i, i + 1 + |v|) == " " + v
  {
    hide ToString;
    forall j | i <= j < i + 1 + |v| ensures t[j] != '#' {
      if j > i {
        assert t[j] == v[j - i - 1];
      }
    }
    ToStringPlain(t, i, i + 1 + |v|);
    BlankSlice(t, i, v);
  }

  lemma BlankSlice(t: string, i: nat, v: string)
    requires i + 1 + |v| <= |t| && t[i] == ' ' && forall j | 0 <= j < |v| :: t[i + 1 + j] == v[j]
    ensures t[i..i + 1 + |v|] == " " + v
  {
  }

  lemma BlankPlace(k: string, v: string, t: string, beginVal: nat, endl: nat)
    requires Located(k, v, t, beginVal, endl) && forall i | 0 <= i < |v| :: SpaceTab(v[i])
    ensures beginVal == |k| + 2 && endl == |k| + 3 + |v|
    ensures '#' !in v
  {
    var n := |k|;
    forall i | n + 3 <= i < n + 3 + |v| ensures SpaceTab(t[i]) && !Endline(t[i]) && t[i] != '#' {
      assert t[i] == v[i - n - 3];
    }
    assert endl == n + 3 + |v|;
  }
}
