/** How the parser reads a stretch of text, independently of what surrounds it. */
module ConfigLaws {
  import opened Options
  import opened ConfigSpec
  import opened Lists

  // ----- Searches are determined by what they find -----

  lemma FindIfIs(t: string, i: nat, end: nat, p: char -> bool, r: nat)
    requires i <= r <= end <= |t|
    requires forall k | i <= k < r :: !p(t[k])
    requires r < end ==> p(t[r])
    ensures FindIf(t, i, end, p) == r
  {
    hide FindIf;
  }

  lemma FindIfNotIs(t: string, i: nat, end: nat, p: char -> bool, r: nat)
    requires i <= r <= end <= |t|
    requires forall k | i <= k < r :: p(t[k])
    requires r < end ==> !p(t[r])
    ensures FindIfNot(t, i, end, p) == r
  {
    hide FindIfNot;
  }

  lemma TrimEndIs(t: string, i: nat, end: nat, p: char -> bool, r: nat)
    requires i <= r <= end <= |t|
    requires forall k | r <= k < end :: p(t[k])
    requires i < r ==> !p(t[r - 1])
    ensures TrimEnd(t, i, end, p) == r
  {
    hide TrimEnd;
  }

  // ----- The same stretch in another text -----

  /** From `pos` on, `t` reappears in `u`, moved by `d`. */
  ghost predicate Reappears(t: string, pos: nat, u: string, d: nat) {
    |t| + d <= |u| && forall k | pos <= k < |t| :: t[k] == u[k + d]
  }

  function Shift(s: Split, d: nat): Split {
    match s
    case Split(a, b, c, e) => Split(a + d, b + d, c + d, e + d)
    case NoEntry(a) => NoEntry(a + d)
  }

  lemma FindIfMoved(t: string, i: nat, end: nat, u: string, d: nat, p: char -> bool)
    requires i <= end <= |t| && Reappears(t, i, u, d)
    ensures FindIf(u, i + d, end + d, p) == FindIf(t, i, end, p) + d
  {
    hide FindIf;
    var r := FindIf(t, i, end, p);
    forall k | i + d <= k < r + d ensures !p(u[k]) {
      assert t[k - d] == u[k];
    }
    FindIfIs(u, i + d, end + d, p, r + d);
  }

  lemma FindIfNotMoved(t: string, i: nat, end: nat, u: string, d: nat, p: char -> bool)
    requires i <= end <= |t| && Reappears(t, i, u, d)
    ensures FindIfNot(u, i + d, end + d, p) == FindIfNot(t, i, end, p) + d
  {
    hide FindIfNot;
    var r := FindIfNot(t, i, end, p);
    forall k | i + d <= k < r + d ensures p(u[k]) {
      assert t[k - d] == u[k];
    }
    FindIfNotIs(u, i + d, end + d, p, r + d);
  }

  lemma TrimEndMoved(t: string, i: nat, end: nat, u: string, d: nat, p: char -> bool)
    requires i <= end <= |t| && Reappears(t, i, u, d)
    ensures TrimEnd(u, i + d, end + d, p) == TrimEnd(t, i, end, p) + d
  {
    hide TrimEnd;
    var r := TrimEnd(t, i, end, p);
    forall k | r + d <= k < end + d ensures p(u[k]) {
      assert t[k - d] == u[k];
    }
    if i < r {
      assert t[r - 1] == u[r - 1 + d];
    }
    TrimEndIs(u, i + d, end + d, p, r + d);
  }

  /** The line at `pos` is as complete in `t` as it is in `u`. */
  ghost predicate SameLine(t: string, pos: nat, u: string, d: nat)
    requires pos <= |t| && Reappears(t, pos, u, d)
  {
    var begin := FindIfNot(t, pos, |t|, Whitespace);
    var endl := FindIf(t, begin, |t|, Endline);
    |u| == |t| + d || (begin < |t| && (endl < |t| || Endline(u[|t| + d])))
  }

  lemma SplitMoved(t: string, pos: nat, u: string, d: nat)
    requires pos <= |t| && Reappears(t, pos, u, d) && SameLine(t, pos, u, d)
    ensures SplitLine(u, pos + d) == Shift(SplitLine(t, pos), d)
  {
    hide FindIf, FindIfNot, Whitespace, Endline, Reappears, SameLine, SplitFrom, Shift;
    BeginAndEndMoved(t, pos, u, d);
    var begin := FindIfNot(t, pos, |t|, Whitespace);
    ReappearsLater(t, pos, u, d, begin);
    SplitFromMoved(t, begin, FindIf(t, begin, |t|, Endline), u, d);
  }

  lemma ReappearsLater(t: string, pos: nat, u: string, d: nat, i: nat)
    requires Reappears(t, pos, u, d) && pos <= i
    ensures Reappears(t, i, u, d) && |t| + d <= |u|
  {
  }

  lemma SplitFromMoved(t: string, begin: nat, endl: nat, u: string, d: nat)
    requires begin <= endl <= |t| && Reappears(t, begin, u, d)
    requires begin < endl ==> !Whitespace(t[begin])
    ensures begin < endl ==> u[begin + d] == t[begin]
    ensures SplitFrom(u, begin + d, endl + d) == Shift(SplitFrom(t, begin, endl), d)
  {
    hide FindIf, FindIfNot, TrimEnd, EndOfEntry, Whitespace, Endline, SpaceTab, IsHash, IsEquals;
    EndOfEntryMoved(t, begin, endl, u, d);
    var endc := EndOfEntry(t, begin, endl);
    FindIfMoved(t, begin, endc, u, d, IsEquals);
    var eq := FindIf(t, begin, endc, IsEquals);
    if eq != endc {
      NameAndValueMoved(t, begin, eq, endc, u, d);
    }
  }

  lemma EndOfEntryMoved(t: string, begin: nat, endl: nat, u: string, d: nat)
    requires begin <= endl <= |t| && Reappears(t, begin, u, d)
    ensures EndOfEntry(u, begin + d, endl + d) == EndOfEntry(t, begin, endl) + d
  {
    hide FindIf, TrimEnd;
    FindIfMoved(t, begin, endl, u, d, IsHash);
    TrimEndMoved(t, begin, FindIf(t, begin, endl, IsHash), u, d, Whitespace);
  }

  lemma NameAndValueMoved(t: string, begin: nat, eq: nat, endc: nat, u: string, d: nat)
    requires begin <= eq < endc <= |t| && Reappears(t, begin, u, d)
    ensures TrimEnd(u, begin + d, eq + d, SpaceTab) == TrimEnd(t, begin, eq, SpaceTab) + d
    ensures FindIfNot(u, eq + 1 + d, endc + d, SpaceTab) == FindIfNot(t, eq + 1, endc, SpaceTab) + d
  {
    hide FindIfNot, TrimEnd;
    TrimEndMoved(t, begin, eq, u, d, SpaceTab);
    FindIfNotMoved(t, eq + 1, endc, u, d, SpaceTab);
  }

  lemma BeginAndEndMoved(t: string, pos: nat, u: string, d: nat)
    requires pos <= |t| && Reappears(t, pos, u, d) && SameLine(t, pos, u, d)
    ensures var begin := FindIfNot(t, pos, |t|, Whitespace);
            && FindIfNot(u, pos + d, |u|, Whitespace) == begin + d
            && FindIf(u, begin + d, |u|, Endline) == FindIf(t, begin, |t|, Endline) + d
  {
    hide FindIf, FindIfNot, Whitespace, Endline;
    var begin := FindIfNot(t, pos, |t|, Whitespace);
    var endl := FindIf(t, begin, |t|, Endline);
    forall k | pos + d <= k < begin + d ensures Whitespace(u[k]) {
      assert t[k - d] == u[k];
    }
    FindIfNotIs(u, pos + d, |u|, Whitespace, begin + d);
    forall k | begin + d <= k < endl + d ensures !Endline(u[k]) {
      assert t[k - d] == u[k];
    }
    FindIfIs(u, begin + d, |u|, Endline, endl + d);
  }

  lemma ToStringNothing(t: string, i: nat)
    requires i <= |t|
    ensures ToString(t, i, i) == ""
  {
  }

  lemma ToStringStep(t: string, i: nat, end: nat)
    requires i < end <= |t|
    ensures var comment := FindIf(t, i, end, IsHash);
            var endl := FindIf(t, comment, end, Endline);
            i < endl && ToString(t, i, end) == t[i..comment] + ToString(t, endl, end)
  {
    hide FindIf;
  }

  lemma {:induction false} ToStringMoved(t: string, i: nat, end: nat, u: string, d: nat)
    requires i <= end <= |t| && Reappears(t, i, u, d)
    ensures ToString(u, i + d, end + d) == ToString(t, i, end)
    decreases end - i
  {
    hide *;
    ReappearsLater(t, i, u, d, i);
    if i == end {
      ToStringNothing(t, i);
      ToStringNothing(u, i + d);
    } else {
      ToStringStep(t, i, end);
      ToStringStep(u, i + d, end + d);
      FindIfMoved(t, i, end, u, d, IsHash);
      var comment := FindIf(t, i, end, IsHash);
      ReappearsLater(t, i, u, d, comment);
      FindIfMoved(t, comment, end, u, d, Endline);
      var endl := FindIf(t, comment, end, Endline);
      ReappearsLater(t, i, u, d, endl);
      ToStringMoved(t, endl, end, u, d);
      SliceMoved(t, i, u, d, comment);
    }
  }

  lemma SliceMoved(t: string, i: nat, u: string, d: nat, j: nat)
    requires i <= j <= |t| && Reappears(t, i, u, d)
    ensures t[i..j] == u[i + d..j + d]
  {
  }

  /** The bracket scan over a stretch, then over whatever follows it. */
  lemma {:induction false} ListEndMoved(t: string, i: nat, stack: nat, u: string, d: nat)
    requires i <= |t| && Reappears(t, i, u, d)
    ensures var r := ListEnd(t, i, stack); ListEnd(u, i + d, stack) == ListEnd(u, r.0 + d, r.1)
    decreases |t| - i
  {
    if i < |t| && stack != 0 {
      assert t[i] == u[i + d];
      ListEndMoved(t, i + 1, if t[i] == '[' then stack + 1 else if t[i] == ']' then stack - 1 else stack, u, d);
    }
  }

  /** The option at `start` is not a list that the text leaves open. */
  predicate OptionClosed(t: string, start: nat)
    requires start <= |t|
  {
    var s := SplitLine(t, start);
    s.Split? && t[s.beginVal] == '[' ==> ListEnd(t, s.beginVal + 1, 1).1 == 0
  }

  lemma OptionMoved(t: string, pos: nat, u: string, d: nat)
    requires pos <= |t| && Reappears(t, pos, u, d) && SameLine(t, pos, u, d)
    requires |u| == |t| + d || OptionClosed(t, pos)
    ensures ParseOption(u, pos + d) == (ParseOption(t, pos).0 + d, ParseOption(t, pos).1)
  {
    hide SplitLine, ToString, ListEnd, SameLine, ParseOption;
    SplitMoved(t, pos, u, d);
    var s := SplitLine(t, pos);
    if s.NoEntry? {
      NoOption(t, pos);
      NoOption(u, pos + d);
    } else {
      ToStringMoved(t, s.begin, s.endName, u, d);
      if t[s.beginVal] == '[' {
        ListOption(t, pos);
        ListOption(u, pos + d);
        ListEndMoved(t, s.beginVal + 1, 1, u, d);
        var r := ListEnd(t, s.beginVal + 1, 1);
        ListEndStops(u, r.0 + d, r.1);
        ListEndStops(t, |t|, 1);
        assert r.1 == 0 || |u| == |t| + d;
        ToStringMoved(t, s.beginVal, r.0, u, d);
      } else {
        LineOption(t, pos);
        LineOption(u, pos + d);
        ToStringMoved(t, s.beginVal, s.endl, u, d);
      }
    }
  }

  lemma ListEndStops(u: string, i: nat, stack: nat)
    requires i <= |u|
    ensures stack == 0 || i == |u| ==> ListEnd(u, i, stack) == (i, stack)
  {
  }

  lemma SuffixReappears(a: string, b: string, i: nat)
    requires i <= |b|
    ensures Reappears(b, i, a + b, |a|) && SameLine(b, i, a + b, |a|)
  {
    hide FindIf, FindIfNot;
  }

  /** Parsing the second part of a text is parsing that part alone. */
  lemma {:induction false} ParseSuffix(a: string, b: string, i: nat)
    ensures ParseFrom(a + b, |a| + i) == ParseFrom(b, i)
    decreases |b| - i
  {
    hide ParseOption;
    if i < |b| {
      var u, endl := a + b, ParseOption(b, i).0;
      SuffixReappears(a, b, i);
      OptionMoved(b, i, u, |a|);
      assert endl < |b| ==> b[endl] == u[endl + |a|];
      ParseSuffix(a, b, NextLine(b, endl));
    }
  }

  // ----- What the parser produces -----

  lemma {:induction false} ToStringPlain(t: string, i: nat, end: nat)
    requires i <= end <= |t|
    requires forall k | i <= k < end :: t[k] != '#'
    ensures ToString(t, i, end) == t[i..end]
  {
    if i < end {
      FindIfIs(t, i, end, IsHash, end);
      FindIfIs(t, end, end, Endline, end);
      NilLeft(t[i..end]);
    }
  }

  lemma {:induction false} ToStringNoHash(t: string, i: nat, end: nat)
    requires i <= end <= |t|
    ensures '#' !in ToString(t, i, end)
    decreases end - i
  {
    if i < end {
      var comment := FindIf(t, i, end, IsHash);
      var endl := FindIf(t, comment, end, Endline);
      ToStringNoHash(t, endl, end);
      assert '#' !in t[i..comment];
    }
  }

  /** A stretch without comments is copied as it is, whatever follows it. */
  lemma ToStringPrefix(t: string, i: nat, m: nat, end: nat)
    requires i <= m <= end <= |t|
    requires forall k | i <= k < m :: t[k] != '#'
    ensures t[i..m] <= ToString(t, i, end)
  {
    if i < end {
      var comment := FindIf(t, i, end, IsHash);
      assert m <= comment;
      assert t[i..m] <= t[i..comment];
    }
  }

  /** The names that a configuration can define. */
  predicate GoodKey(k: string) {
    && k != "" && !SpaceTab(k[0]) && !SpaceTab(k[|k| - 1])
    && forall i | 0 <= i < |k| :: !Endline(k[i]) && k[i] != '#' && k[i] != '='
  }

  lemma OptionKeyIsGood(t: string, pos: nat)
    requires pos <= |t|
    ensures var e := ParseOption(t, pos).1; e.Some? ==> GoodKey(e.value.0)
  {
    hide ToString, ListEnd, FindIf, FindIfNot, TrimEnd;
    var s := SplitLine(t, pos);
    if s.Split? {
      SplitKey(t, pos);
      ToStringPlain(t, s.begin, s.endName);
      var k := t[s.begin..s.endName];
      assert forall i | 0 <= i < |k| :: k[i] == t[s.begin + i];
    }
  }

  lemma SplitKey(t: string, pos: nat)
    requires pos <= |t| && SplitLine(t, pos).Split?
    ensures var s := SplitLine(t, pos);
            && !SpaceTab(t[s.begin]) && !SpaceTab(t[s.endName - 1])
            && forall i | s.begin <= i < s.endName :: !Endline(t[i]) && t[i] != '#' && t[i] != '='
  {
    hide FindIf, FindIfNot, TrimEnd;
  }

  lemma {:induction false} ParsedKeysAreGood(t: string, pos: nat, k: string)
    requires k in ParseFrom(t, pos)
    ensures GoodKey(k)
    decreases |t| - pos
  {
    hide ParseOption, GoodKey;
    if pos < |t| {
      OptionKeyIsGood(t, pos);
      var (endl, e) := ParseOption(t, pos);
      if e.None? || k != e.value.0 {
        ParsedKeysAreGood(t, NextLine(t, endl), k);
      }
    }
  }
}
