/**
  How freely a configuration may be laid out: indentation, blanks around `=`, comments, both
  line ends, and which lines are passed over.
 */
module ConfigLayout {
  import opened Options
  import opened Lists
  import opened ConfigSpec
  import opened ConfigLaws
  import opened ConfigRoundTrip

  predicate AllOf(s: string, p: char -> bool) {
    forall i | 0 <= i < |s| :: p(s[i])
  }

  /** A line ends with a newline, or with a carriage return and one more character, whatever it is. */
  predicate IsEnding(s: string) {
    s == "\n" || (|s| == 2 && s[0] == '\r')
  }

  /** Nothing, or a comment. */
  predicate IsComment(s: string) {
    s == "" || (s[0] == '#' && forall i | 0 <= i < |s| :: !Endline(s[i]))
  }

  /** A value on one line, blanks at its end included. */
  predicate IsLineValue(v: string) {
    && v != "" && v[0] != '[' && !SpaceTab(v[0])
    && forall i | 0 <= i < |v| :: !Endline(v[i]) && v[i] != '#'
  }

  /** A list that is closed by its last character. */
  predicate IsListValue(v: string) {
    v != "" && v[0] == '[' && '#' !in v && ListEnd(v, 1, 1) == (|v|, 0)
  }

  /** Name, blanks, `=` and blanks, then the value. */
  function Head(lead: string, k: string, b1: string, b2: string): string {
    lead + k + b1 + "=" + b2
  }

  predicate GoodHead(lead: string, k: string, b1: string, b2: string) {
    AllOf(lead, Whitespace) && GoodKey(k) && AllOf(b1, SpaceTab) && AllOf(b2, SpaceTab)
  }

  /** The text begins with a head: name from `p` to `q`, `=` at `e`, the value from `h` on. */
  predicate HeadAt(t: string, p: nat, q: nat, e: nat, h: nat, k: string) {
    && p < q <= e < h <= |t| && t[p..q] == k
    && (forall i | 0 <= i < p :: Whitespace(t[i])) && !Whitespace(t[p]) && !SpaceTab(t[q - 1])
    && (forall i | p <= i < h :: !Endline(t[i]) && t[i] != '#')
    && (forall i | p <= i < e :: t[i] != '=') && t[e] == '='
    && (forall i | q <= i < e :: SpaceTab(t[i])) && forall i | e < i < h :: SpaceTab(t[i])
  }

  lemma HeadChars(lead: string, k: string, b1: string, b2: string, tail: string)
    requires GoodHead(lead, k, b1, b2)
    ensures var t, h, q := Head(lead, k, b1, b2) + tail, |Head(lead, k, b1, b2)|, |lead| + |k|;
            HeadAt(t, |lead|, q, q + |b1|, h, k) && t[h..] == tail
  {
    var h := Head(lead, k, b1, b2);
    var t := h + tail;
    var p, q, e := |lead|, |lead| + |k|, |lead| + |k| + |b1|;
    assert forall i | 0 <= i < p :: h[i] == lead[i];
    assert forall i | p <= i < q :: h[i] == k[i - p];
    assert forall i | q <= i < e :: h[i] == b1[i - q];
    assert h[e] == '=';
    assert forall i | e < i < |h| :: h[i] == b2[i - e - 1];
    assert forall i | 0 <= i < |h| :: t[i] == h[i];
  }

  lemma NameAt(t: string, p: nat, q: nat, e: nat, h: nat, k: string)
    requires HeadAt(t, p, q, e, h, k)
    ensures ToString(t, p, q) == k
  {
    ToStringPlain(t, p, q);
  }

  lemma EntryEndsBehind(t: string, p: nat, h: nat, endl: nat)
    requires p <= h < endl <= |t| && !Whitespace(t[h]) && forall i | p <= i <= h :: t[i] != '#'
    ensures h < EndOfEntry(t, p, endl)
  {
    var hash := FindIf(t, p, endl, IsHash);
    var endc := TrimEnd(t, p, hash, Whitespace);
    hide FindIf, TrimEnd;
    assert hash < endl ==> t[hash] == '#';
    assert hash > h;
  }

  /** Where the parts of an entry lie, when something that is no blank follows its head on the same line. */
  lemma EntryLocated(t: string, p: nat, q: nat, e: nat, h: nat, k: string, endl: nat)
    requires HeadAt(t, p, q, e, h, k) && h < endl <= |t| && !Whitespace(t[h]) && t[h] != '#'
    requires (forall i | h <= i < endl :: !Endline(t[i])) && (endl < |t| ==> Endline(t[endl]))
    ensures SplitLine(t, 0) == Split(p, endl, q, h)
  {
    hide FindIf, FindIfNot, TrimEnd, EndOfEntry;
    EntryEndsBehind(t, p, h, endl);
    var endc := EndOfEntry(t, p, endl);
    FindIfNotIs(t, 0, |t|, Whitespace, p);
    FindIfIs(t, p, |t|, Endline, endl);
    FindIfIs(t, p, endc, IsEquals, e);
    TrimEndIs(t, p, e, SpaceTab, q);
    FindIfNotIs(t, e + 1, endc, SpaceTab, h);
  }

  /** Behind the ending of an entry the text is read as if it stood alone. */
  lemma ReadsOn(t: string, front: string, rest: string, endl: nat, k: string, v: string)
    requires t == front + rest && endl < |front| && NextLine(t, endl) == |front|
    requires ParseOption(t, 0) == (endl, Some((k, v)))
    ensures ParseConfig(t) == ParseConfig(rest)[k := v]
  {
    hide ParseOption, NextLine;
    ParseSuffix(front, rest, 0);
  }

  /**
    An entry may be indented, have any blanks around `=`, a comment behind its value and
    either line end: its name and value are read, and nothing else changes.
   */
  lemma LineLayout(lead: string, k: string, b1: string, b2: string, v: string, comment: string, ending: string, rest: string)
    requires GoodHead(lead, k, b1, b2) && IsLineValue(v) && IsComment(comment) && IsEnding(ending)
    ensures ParseConfig(Head(lead, k, b1, b2) + v + comment + ending + rest) == ParseConfig(rest)[k := v]
  {
    hide *;
    var h := Head(lead, k, b1, b2);
    var line, front := h + v + comment, h + v + comment + ending;
    var t := front + rest;
    Regrouped(h, v, comment, ending, rest);
    LineLayoutRead(lead, k, b1, b2, v, comment, ending, rest);
    EndingSkipped(t, |line|, ending, line, rest);
    ReadsOn(t, front, rest, |line|, k, v);
  }

  lemma Regrouped(h: string, v: string, comment: string, ending: string, rest: string)
    ensures h + v + comment + ending + rest == h + (v + comment + ending + rest)
  {
  }

  lemma EndingSkipped(t: string, endl: nat, ending: string, front: string, rest: string)
    requires IsEnding(ending) && t == front + ending + rest && endl == |front|
    ensures endl < |front + ending| && endl < |t| && Endline(t[endl]) && NextLine(t, endl) == |front + ending|
  {
    assert t[endl] == ending[0];
  }

  /** A value from `h` to `c`, then perhaps a comment, up to the line end at `l`. */
  predicate LineFrom(t: string, h: nat, c: nat, l: nat) {
    && h < c <= l < |t| && (forall i | h <= i < l :: !Endline(t[i])) && Endline(t[l])
    && (forall i | h <= i < c :: t[i] != '#') && (c < l ==> t[c] == '#')
    && !Whitespace(t[h]) && t[h] != '['
  }

  /** What stands behind the head. */
  lemma TailAt(t: string, h: nat, v: string, comment: string, ending: string, rest: string)
    requires h <= |t| && t[h..] == v + comment + ending + rest
    requires IsLineValue(v) && IsComment(comment) && IsEnding(ending)
    ensures LineFrom(t, h, h + |v|, h + |v| + |comment|) && t[h..h + |v|] == v
  {
    var tail := t[h..];
    assert forall i | 0 <= i < |v| :: tail[i] == v[i];
    assert forall i | 0 <= i < |comment| :: tail[|v| + i] == comment[i];
    assert tail[|v| + |comment|] == ending[0];
    assert forall i | h <= i < |t| :: t[i] == tail[i - h];
  }

  lemma LineLayoutRead(lead: string, k: string, b1: string, b2: string, v: string, comment: string, ending: string, rest: string)
    requires GoodHead(lead, k, b1, b2) && IsLineValue(v) && IsComment(comment) && IsEnding(ending)
    ensures var h := Head(lead, k, b1, b2);
            ParseOption(h + (v + comment + ending + rest), 0) == (|h + v + comment|, Some((k, v)))
  {
    hide *;
    var tail := v + comment + ending + rest;
    var h := |Head(lead, k, b1, b2)|;
    var t := Head(lead, k, b1, b2) + tail;
    HeadChars(lead, k, b1, b2, tail);
    TailAt(t, h, v, comment, ending, rest);
    EntryReads(t, |lead|, |lead| + |k|, |lead| + |k| + |b1|, h, k, h + |v|, h + |v| + |comment|);
  }

  lemma EntryReads(t: string, p: nat, q: nat, e: nat, h: nat, k: string, c: nat, l: nat)
    requires HeadAt(t, p, q, e, h, k) && LineFrom(t, h, c, l)
    ensures ParseOption(t, 0) == (l, Some((k, t[h..c])))
  {
    EntryLocated(t, p, q, e, h, k, l);
    NameAt(t, p, q, e, h, k);
    ValueBeforeComment(t, h, c, l);
    hide HeadAt, SplitLine, ParseOption, ToString;
    LineOption(t, 0);
  }

  lemma ValueBeforeComment(t: string, i: nat, hash: nat, end: nat)
    requires i <= hash <= end <= |t| && i < end
    requires (forall j | i <= j < hash :: t[j] != '#') && (hash < end ==> t[hash] == '#')
    requires forall j | i <= j < end :: !Endline(t[j])
    ensures ToString(t, i, end) == t[i..hash]
  {
    hide ToString;
    FindIfIs(t, i, end, IsHash, hash);
    FindIfIs(t, hash, end, Endline, end);
    ToStringStep(t, i, end);
    ToStringNothing(t, end);
    assert t[i..hash] + "" == t[i..hash];
  }

  /** A closed list may span lines; the parser goes on behind the one character after its bracket (two for a carriage return). */
  lemma ListLayout(lead: string, k: string, b1: string, b2: string, v: string, next: string, rest: string)
    requires GoodHead(lead, k, b1, b2) && IsListValue(v) && IsNext(next)
    ensures ParseConfig(Head(lead, k, b1, b2) + v + next + rest) == ParseConfig(rest)[k := v]
  {
    hide *;
    var h := Head(lead, k, b1, b2);
    var list, front := h + v, h + v + next;
    var t := front + rest;
    Assoc4(h, v, next, rest);
    PrefixOfTail(v, next, rest);
    ListLayoutRead(lead, k, b1, b2, v, v + next + rest);
    NextSkipped(t, |list|, next, list, rest);
    ReadsOn(t, front, rest, |list|, k, v);
  }

  predicate IsNext(s: string) {
    (|s| == 1 && s[0] != '\r') || (|s| == 2 && s[0] == '\r')
  }

  lemma Assoc4(h: string, v: string, next: string, rest: string)
    ensures h + v + next + rest == h + (v + next + rest)
  {
  }

  lemma PrefixOfTail(v: string, next: string, rest: string)
    requires IsNext(next)
    ensures v <= v + next + rest && |v| < |v + next + rest|
  {
  }

  lemma NextSkipped(t: string, endl: nat, next: string, front: string, rest: string)
    requires IsNext(next) && t == front + next + rest && endl == |front|
    ensures endl < |front + next| && endl < |t| && NextLine(t, endl) == |front + next|
  {
    assert t[endl] == next[0];
  }

  lemma ListLayoutRead(lead: string, k: string, b1: string, b2: string, v: string, tail: string)
    requires GoodHead(lead, k, b1, b2) && IsListValue(v) && v <= tail && |v| < |tail|
    ensures var h := Head(lead, k, b1, b2); ParseOption(h + tail, 0) == (|h + v|, Some((k, v)))
  {
    hide *;
    var h := |Head(lead, k, b1, b2)|;
    var t := Head(lead, k, b1, b2) + tail;
    HeadChars(lead, k, b1, b2, tail);
    ListAt(t, h, v);
    ListReads(t, |lead|, |lead| + |k|, |lead| + |k| + |b1|, h, k, h + |v|);
  }

  lemma ListReads(t: string, p: nat, q: nat, e: nat, h: nat, k: string, close: nat)
    requires HeadAt(t, p, q, e, h, k) && h < close <= |t| && t[h] == '[' && ListEnd(t, h + 1, 1).0 == close
    requires h + 1 < |t|
    requires forall i | h <= i < close :: t[i] != '#'
    ensures ParseOption(t, 0) == (close, Some((k, t[h..close])))
  {
    hide *;
    ListLocated(t, p, q, e, h, k);
    NameAt(t, p, q, e, h, k);
    ToStringPlain(t, h, close);
    ListOption(t, 0);
  }

  lemma ListLocated(t: string, p: nat, q: nat, e: nat, h: nat, k: string)
    requires HeadAt(t, p, q, e, h, k) && h < |t| && t[h] == '['
    ensures var s := SplitLine(t, 0); s.Split? && s.begin == p && s.endName == q && s.beginVal == h
  {
    hide HeadAt, SplitLine;
    var endl := FirstLineOfList(t, h);
    EntryLocated(t, p, q, e, h, k, endl);
  }

  lemma ListAt(t: string, h: nat, v: string)
    requires IsListValue(v) && h < |t| && v <= t[h..] && |v| < |t[h..]|
    ensures h + |v| < |t| && t[h] == '[' && t[h..h + |v|] == v && ListEnd(t, h + 1, 1).0 == h + |v|
    ensures forall i | h <= i < h + |v| :: t[i] != '#'
  {
    hide ListEnd;
    assert forall i | 0 <= i < |v| :: t[h + i] == t[h..][i] == v[i];
    EmbeddedList(v, t, h);
    assert forall i | h <= i < h + |v| :: t[i] == v[i - h];
  }

  lemma FirstLineOfList(t: string, h: nat) returns (endl: nat)
    requires h < |t| && t[h] == '['
    ensures h < endl <= |t| && (forall i | h <= i < endl :: !Endline(t[i])) && (endl < |t| ==> Endline(t[endl]))
  {
    endl := FindIf(t, h, |t|, Endline);
  }

  /** A list that is never closed takes the whole rest of the text, unless its bracket is the last character: then it is no entry. */
  lemma UnclosedListLayout(lead: string, k: string, b1: string, b2: string, v: string)
    requires GoodHead(lead, k, b1, b2) && v != "" && v[0] == '[' && '#' !in v && ListEnd(v, 1, 1).1 != 0
    ensures ParseConfig(Head(lead, k, b1, b2) + v) == if |v| == 1 then map[] else map[k := v]
  {
    hide *;
    var h := |Head(lead, k, b1, b2)|;
    var t := Head(lead, k, b1, b2) + v;
    HeadChars(lead, k, b1, b2, v);
    UnclosedAt(t, h, v);
    if |v| == 1 {
      LoneBracketReads(t, |lead|, |lead| + |k|, |lead| + |k| + |b1|, h, k);
      NothingMore(t);
    } else {
      ListReads(t, |lead|, |lead| + |k|, |lead| + |k| + |b1|, h, k, |t|);
      LastOption(t, k, v);
    }
  }

  lemma UnclosedAt(t: string, h: nat, v: string)
    requires v != "" && v[0] == '[' && '#' !in v && ListEnd(v, 1, 1).1 != 0 && h < |t| && t[h..] == v
    ensures t[h] == '[' && |t| == h + |v| && t[h..|t|] == v && ListEnd(t, h + 1, 1).0 == |t|
    ensures forall i | h <= i < |t| :: t[i] != '#'
  {
    hide ListEnd;
    assert forall i | 0 <= i < |v| :: v[i] == t[h + i];
    ListEndMoved(v, 1, 1, t, h);
    ListEndStops(t, |t|, ListEnd(v, 1, 1).1);
    assert forall i | h <= i < |t| :: t[i] == v[i - h];
  }

  lemma LoneBracketReads(t: string, p: nat, q: nat, e: nat, h: nat, k: string)
    requires HeadAt(t, p, q, e, h, k) && h + 1 == |t| && t[h] == '['
    ensures ParseOption(t, 0) == (|t|, None)
  {
    ListLocated(t, p, q, e, h, k);
    ListEndStops(t, |t|, 1);
    hide HeadAt, SplitLine, ParseOption, ToString;
    ListOption(t, 0);
  }

  lemma NothingMore(t: string)
    requires t != "" && ParseOption(t, 0) == (|t|, None)
    ensures ParseConfig(t) == map[]
  {
    hide ParseOption;
    assert ParseFrom(t, |t|) == map[];
  }

  lemma LastOption(t: string, k: string, v: string)
    requires t != "" && ParseOption(t, 0) == (|t|, Some((k, v)))
    ensures ParseConfig(t) == map[k := v]
  {
    hide ParseOption;
    assert ParseFrom(t, |t|) == map[];
  }

  // ----- Lines that are passed over -----

  /** No `=` before the first `#`, or nothing in front of `=`, or nothing at all behind it. */
  predicate IsPassedOver(x: string) {
    && x != "" && !Whitespace(x[0]) && (forall i | 0 <= i < |x| :: !Endline(x[i]))
    && var hash := FindIf(x, 0, |x|, IsHash);
       || x[0] == '='
       || (forall i | 0 <= i < hash :: x[i] != '=')
       || (hash == |x| && x[|x| - 1] == '=' && forall i | 0 <= i < |x| - 1 :: x[i] != '=')
  }

  /** Comment lines, lines without `=`, and lines without a name or value are no entries. */
  lemma LinesPassedOver(lead: string, x: string, ending: string, rest: string)
    requires AllOf(lead, Whitespace) && IsPassedOver(x) && IsEnding(ending)
    ensures ParseConfig(lead + x + ending + rest) == ParseConfig(rest)
  {
    hide *;
    var front := lead + x;
    var t := front + ending + rest;
    EndingSkipped(t, |front|, ending, front, rest);
    PassedOverPlace(lead, x, ending, rest);
    PassedOverRead(t, |lead|, |front|, x);
    SkipsOn(t, front + ending, rest, |front|);
  }

  lemma PassedOverPlace(lead: string, x: string, ending: string, rest: string)
    requires AllOf(lead, Whitespace)
    ensures var t := lead + x + ending + rest;
            t[|lead|..|lead + x|] == x && forall i | 0 <= i < |lead| :: Whitespace(t[i])
  {
    var t := lead + x + ending + rest;
    assert forall i | 0 <= i < |lead| :: t[i] == lead[i];
  }

  lemma SkipsOn(t: string, front: string, rest: string, endl: nat)
    requires t == front + rest && endl < |front| && NextLine(t, endl) == |front|
    requires ParseOption(t, 0) == (endl, None)
    ensures ParseConfig(t) == ParseConfig(rest)
  {
    hide ParseOption, NextLine;
    ParseSuffix(front, rest, 0);
  }

  lemma PassedOverRead(t: string, p: nat, endl: nat, x: string)
    requires p + |x| == endl < |t| && t[p..endl] == x && IsPassedOver(x) && Endline(t[endl])
    requires forall i | 0 <= i < p :: Whitespace(t[i])
    ensures ParseOption(t, 0) == (endl, None)
  {
    assert forall i | 0 <= i < |x| :: t[p + i] == x[i];
    var hash := FindIf(x, 0, |x|, IsHash);
    FindIfNotIs(t, 0, |t|, Whitespace, p);
    FindIfIs(t, p, |t|, Endline, endl);
    FindIfIs(t, p, endl, IsHash, p + hash);
    hide FindIf, FindIfNot, ToString, ListEnd;
    var endc := EndOfEntry(t, p, endl);
    assert SplitLine(t, 0) == SplitFrom(t, p, endl);
    NoEntryIn(t, p, endl, endc, x, hash);
    NoOption(t, 0);
  }

  lemma NoEntryIn(t: string, p: nat, endl: nat, endc: nat, x: string, hash: nat)
    requires p + |x| == endl < |t| && t[p..endl] == x && IsPassedOver(x) && hash == FindIf(x, 0, |x|, IsHash)
    requires endc == TrimEnd(t, p, p + hash, Whitespace) == EndOfEntry(t, p, endl)
    ensures SplitFrom(t, p, endl) == NoEntry(endl)
  {
    assert forall i | 0 <= i < |x| :: t[p + i] == x[i];
    if x[0] == '=' {
      if endc > p {
        FindIfIs(t, p, endc, IsEquals, p);
      }
    } else if forall i | 0 <= i < hash :: x[i] != '=' {
      assert forall i | p <= i < endc :: t[i] == x[i - p] && t[i] != '=';
      FindIfIs(t, p, endc, IsEquals, endc);
    } else {
      TrimEndIs(t, p, endl, Whitespace, endl);
      FindIfIs(t, p, endc, IsEquals, endl - 1);
    }
  }
}
