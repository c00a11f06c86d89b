/** The KeyValues parser (scripts/steamshine-steam-cache.py:19-61): tokens, objects and the parse as functions. */
module KeyValuesSpec {
  import opened Options

  datatype Token = Text(text: string) | Open | Close

  /** Entries in insertion order, as a Python dictionary keeps them. */
  datatype Entries = End | Entry(key: string, value: Node, next: Entries)

  datatype Node = Leaf(text: string) | Object(entries: Entries)

  // ----- Tokens -----

  /** What the pattern \s matches in a Unicode string. */
  predicate IsSpace(c: char) {
    var x := c as int;
    || 0x09 <= x <= 0x0D || 0x1C <= x <= 0x20 || x == 0x85 || x == 0xA0 || x == 0x1680
    || 0x2000 <= x <= 0x200A || x == 0x2028 || x == 0x2029 || x == 0x202F || x == 0x205F || x == 0x3000
  }

  function SpaceLength(s: string): (n: nat)
    ensures n <= |s| && (n == 0 <==> s == "" || !IsSpace(s[0]))
  {
    if s == "" || !IsSpace(s[0]) then 0 else 1 + SpaceLength(s[1..])
  }

  /** Characters up to the next newline, or to the end. */
  function LineLength(s: string): (n: nat)
    ensures n <= |s| && '\n' !in s[..n] && (n < |s| ==> s[n] == '\n')
  {
    if s == "" || s[0] == '\n' then 0 else
      var n := LineLength(s[1..]);
      assert s[..n + 1] == [s[0]] + s[1..][..n];
      n + 1
  }

  /** Where the quote closing a string is, seen from behind the opening quote. */
  function StringLength(s: string): (r: Option<nat>)
    ensures r.Some? ==> r.value < |s| && s[r.value] == '"'
  {
    if s == "" then None
    else if s[0] == '"' then Some(0)
    else if s[0] == '\\' then
      if |s| < 2 || s[1] == '\n' then None
      else match StringLength(s[2..])
        case None => None
        case Some(n) => Some(n + 2)
    else match StringLength(s[1..])
      case None => None
      case Some(n) => Some(n + 1)
  }

  /** Undo the escapes of backslash and quote; other backslashes stay. */
  function Unescape(s: string): string {
    if s == "" then ""
    else if s[0] == '\\' && |s| >= 2 && (s[1] == '\\' || s[1] == '"') then [s[1]] + Unescape(s[2..])
    else [s[0]] + Unescape(s[1..])
  }

  /** A match of the token pattern at the start of a text: its length and the token, if it is one. */
  datatype Match = NoMatch | Match(length: nat, token: Option<Token>)

  function MatchFirst(s: string): (m: Match)
    requires s != ""
    ensures m.Match? ==> 0 < m.length <= |s|
  {
    if IsSpace(s[0]) then Match(SpaceLength(s), None)
    else if |s| >= 2 && s[0] == '/' && s[1] == '/' then Match(2 + LineLength(s[2..]), None)
    else if s[0] == '"' then
      match StringLength(s[1..])
      case None => NoMatch
      case Some(n) => Match(n + 2, Some(Text(Unescape(s[1..n + 1]))))
    else if s[0] == '{' then Match(1, Some(Open))
    else if s[0] == '}' then Match(1, Some(Close))
    else NoMatch
  }

  /** Tokens read so far, then the outcome of the rest. */
  function Before(tokens: seq<Token>, rest: Option<seq<Token>>): Option<seq<Token>> {
    match rest
    case None => None
    case Some(ts) => Some(tokens + ts)
  }

  /** All tokens of a text; None when some position matches nothing. */
  function Tokenize(s: string): Option<seq<Token>>
    decreases |s|
  {
    if s == "" then Some([])
    else match MatchFirst(s)
      case NoMatch => None
      case Match(n, token) => Before(if token.Some? then [token.value] else [], Tokenize(s[n..]))
  }

  // ----- Objects -----

  /** Assign a key: an existing key keeps its place and gets the new value. */
  function Put(es: Entries, key: string, value: Node): Entries {
    match es
    case End => Entry(key, value, End)
    case Entry(k, v, next) => if k == key then Entry(k, value, next) else Entry(k, v, Put(next, key, value))
  }

  const MAX_DEPTH := 16

  datatype Result = Failed | Parsed(entries: Entries, position: nat)

  /** The rest of a `block` call's loop, with what it has collected so far. */
  function Loop(tokens: seq<Token>, position: nat, nested: bool, depth: nat, result: Entries): (r: Result)
    requires position <= |tokens|
    ensures r.Parsed? ==> position <= r.position <= |tokens|
    decreases |tokens| - position, 0
  {
    if position == |tokens| then
      if nested then Failed else Parsed(result, position)
    else if tokens[position].Close? && nested then Parsed(result, position + 1)
    else if !tokens[position].Text? || position + 1 == |tokens| then Failed
    else
      var key := tokens[position].text;
      match tokens[position + 1]
      case Close => Failed
      case Text(value) => Loop(tokens, position + 2, nested, depth, Put(result, key, Leaf(value)))
      case Open =>
        match Block(tokens, position + 2, true, depth + 1)
        case Failed => Failed
        case Parsed(value, next) => Loop(tokens, next, nested, depth, Put(result, key, Object(value)))
  }

  function Block(tokens: seq<Token>, position: nat, nested: bool, depth: nat): (r: Result)
    requires position <= |tokens|
    ensures r.Parsed? ==> position <= r.position <= |tokens|
    decreases |tokens| - position, 1
  {
    if depth > MAX_DEPTH then Failed else Loop(tokens, position, nested, depth, End)
  }

  /** `parse_vdf`; None stands for the ValueError. */
  function ParseVdf(s: string): Option<Entries> {
    match Tokenize(s)
    case None => None
    case Some(tokens) => ParseTokens(tokens)
  }

  function ParseTokens(tokens: seq<Token>): Option<Entries> {
    match Block(tokens, 0, false, 0)
    case Failed => None
    case Parsed(es, _) => Some(es)
  }
}
