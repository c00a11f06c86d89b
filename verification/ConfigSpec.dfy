/**
  The configuration text format (src/config.cpp:916-1087, src/confighttp.cpp:3749-3753):
  the parser, the printer and the appending updater as functions on strings. Positions are
  indices where the original uses iterators.
 */
module ConfigSpec {
  import opened Options

  predicate Endline(c: char) {
    c == '\r' || c == '\n'
  }

  predicate SpaceTab(c: char) {
    c == ' ' || c == '\t'
  }

  predicate Whitespace(c: char) {
    SpaceTab(c) || Endline(c)
  }

  predicate IsHash(c: char) {
    c == '#'
  }

  predicate IsEquals(c: char) {
    c == '='
  }

  // ----- Searching, as in <algorithm> -----

  function FindIf(t: string, i: nat, end: nat, p: char -> bool): (r: nat)
    requires i <= end <= |t|
    ensures i <= r <= end
    ensures forall k | i <= k < r :: !p(t[k])
    ensures r < end ==> p(t[r])
    decreases end - i
  {
    if i == end || p(t[i]) then i else FindIf(t, i + 1, end, p)
  }

  function FindIfNot(t: string, i: nat, end: nat, p: char -> bool): (r: nat)
    requires i <= end <= |t|
    ensures i <= r <= end
    ensures forall k | i <= k < r :: p(t[k])
    ensures r < end ==> !p(t[r])
    decreases end - i
  {
    if i == end || !p(t[i]) then i else FindIfNot(t, i + 1, end, p)
  }

  /** The end of the range once trailing characters satisfying `p` are cut off (a reverse search and `.base()`). */
  function TrimEnd(t: string, i: nat, end: nat, p: char -> bool): (r: nat)
    requires i <= end <= |t|
    ensures i <= r <= end
    ensures forall k | r <= k < end :: p(t[k])
    ensures i < r ==> !p(t[r - 1])
    decreases end - i
  {
    if i == end || !p(t[end - 1]) then end else TrimEnd(t, i, end - 1, p)
  }

  // ----- The parser -----

  /** `to_string`: copy a range without its comments. */
  function ToString(t: string, i: nat, end: nat): string
    requires i <= end <= |t|
    decreases end - i
  {
    if i == end then ""
    else
      var comment := FindIf(t, i, end, IsHash);
      var endl := FindIf(t, comment, end, Endline);
      t[i..comment] + ToString(t, endl, end)
  }

  /** `skip_list`: where the scan stops, and how many brackets are then still open. */
  function ListEnd(t: string, i: nat, stack: nat): (r: (nat, nat))
    requires i <= |t|
    ensures i <= r.0 <= |t|
    ensures r.1 != 0 ==> r.0 == |t|
    decreases |t| - i
  {
    if i == |t| || stack == 0 then (i, stack)
    else ListEnd(t, i + 1, if t[i] == '[' then stack + 1 else if t[i] == ']' then stack - 1 else stack)
  }

  /** The parts of one entry that the parser locates before it looks at lists. */
  datatype Split = Split(begin: nat, endl: nat, endName: nat, beginVal: nat) | NoEntry(endl: nat)

  function SplitLine(t: string, start: nat): (r: Split)
    requires start <= |t|
    ensures start <= r.endl <= |t|
    ensures r.Split? ==> start <= r.begin < r.endName < r.beginVal < r.endl
  {
    var begin := FindIfNot(t, start, |t|, Whitespace);
    SplitFrom(t, begin, FindIf(t, begin, |t|, Endline))
  }

  /** The end of the line without its comment and trailing blanks. */
  function EndOfEntry(t: string, begin: nat, endl: nat): (r: nat)
    requires begin <= endl <= |t|
    ensures begin <= r <= endl
  {
    TrimEnd(t, begin, FindIf(t, begin, endl, IsHash), Whitespace)
  }

  function SplitFrom(t: string, begin: nat, endl: nat): (r: Split)
    requires begin <= endl <= |t|
    requires begin < endl ==> !Whitespace(t[begin])
    ensures r.endl == endl
    ensures r.Split? ==> begin == r.begin < r.endName < r.beginVal < r.endl
  {
    var endc := EndOfEntry(t, begin, endl);
    var eq := FindIf(t, begin, endc, IsEquals);
    if eq == endc || eq == begin then NoEntry(endl)
    else
      var endName := TrimEnd(t, begin, eq, SpaceTab);
      var beginVal := FindIfNot(t, eq + 1, endc, SpaceTab);
      if beginVal == endl then NoEntry(endl) else Split(begin, endl, endName, beginVal)
  }

  type Entry = (string, string)

  /** `parse_option`. */
  function ParseOption(t: string, start: nat): (r: (nat, Option<Entry>))
    requires start <= |t|
    ensures start <= r.0 <= |t|
  {
    match SplitLine(t, start)
    case NoEntry(endl) => (endl, None)
    case Split(begin, endl, endName, beginVal) =>
      var name := ToString(t, begin, endName);
      if t[beginVal] == '[' then
        var close := ListEnd(t, beginVal + 1, 1).0;
        if close == |t| && |t| == beginVal + 1 then (close, None)
        else (close, Some((name, ToString(t, beginVal, close))))
      else (endl, Some((name, ToString(t, beginVal, endl))))
  }

  lemma NoOption(t: string, start: nat)
    requires start <= |t| && SplitLine(t, start).NoEntry?
    ensures ParseOption(t, start) == (SplitLine(t, start).endl, None)
  {
    hide SplitLine, ToString, ListEnd;
  }

  lemma LineOption(t: string, start: nat)
    requires start <= |t| && SplitLine(t, start).Split?
    requires t[SplitLine(t, start).beginVal] != '['
    ensures var s := SplitLine(t, start);
            ParseOption(t, start) == (s.endl, Some((ToString(t, s.begin, s.endName), ToString(t, s.beginVal, s.endl))))
  {
    hide SplitLine, ToString, ListEnd;
  }

  lemma ListOption(t: string, start: nat)
    requires start <= |t| && SplitLine(t, start).Split?
    requires t[SplitLine(t, start).beginVal] == '['
    ensures var s := SplitLine(t, start);
            var close := ListEnd(t, s.beginVal + 1, 1).0;
            ParseOption(t, start) ==
              if close == |t| && |t| == s.beginVal + 1 then (close, None)
              else (close, Some((ToString(t, s.begin, s.endName), ToString(t, s.beginVal, close))))
  {
    hide SplitLine, ToString, ListEnd;
  }

  /** Where `parse_config` goes on after an option that ended at `endl`. */
  function NextLine(t: string, endl: nat): nat
    requires endl <= |t|
  {
    if endl == |t| then endl else endl + (if t[endl] == '\r' then 2 else 1)
  }

  /** `parse_config` from a position: the first definition of a name wins. */
  function ParseFrom(t: string, pos: nat): map<string, string>
    decreases |t| - pos
  {
    if pos >= |t| then map[]
    else
      var (endl, entry) := ParseOption(t, pos);
      var next := NextLine(t, endl);
      var rest := ParseFrom(t, next);
      match entry
      case None => rest
      case Some((k, v)) => rest[k := v]
  }

  function ParseConfig(t: string): map<string, string> {
    ParseFrom(t, 0)
  }

  // ----- Printing and appending -----

  /** One printed entry. */
  function Line(key: string, value: string): string {
    key + " = " + value + "\n"
  }

  function Print(es: seq<Entry>): string {
    if es == [] then "" else Line(es[0].0, es[0].1) + Print(es[1..])
  }

  /** The text `persist_config_option_if_missing` writes. */
  function Appended(t: string, name: string, value: string): string {
    (if t != "" && t[|t| - 1] != '\n' then t + "\n" else t) + Line(name, value)
  }
}
