/** Rendering and parsing KeyValues documents are inverse, and exactly the renderings are accepted. */
module KeyValuesTheorems {
  import opened Arithmetic
  import opened Options
  import opened KeyValuesSpec
  import opened Lists

  // ----- Token level -----

  /** The tokens of an object's entries. */
  function TokensOf(es: Entries): seq<Token> {
    match es
    case End => []
    case Entry(k, v, next) => [Text(k)] + NodeTokens(v) + TokensOf(next)
  }

  function NodeTokens(v: Node): seq<Token> {
    match v
    case Leaf(t) => [Text(t)]
    case Object(es) => [Open] + TokensOf(es) + [Close]
  }

  /** How deeply objects are nested below this level. */
  function Depth(es: Entries): nat {
    match es
    case End => 0
    case Entry(_, v, next) => Max(if v.Object? then 1 + Depth(v.entries) else 0, Depth(next))
  }

  /** What a dictionary built from the entries holds: per key the last value, at the place of the first. */
  function Collect(es: Entries, result: Entries): Entries {
    match es
    case End => result
    case Entry(k, v, next) => Collect(next, Put(result, k, Settled(v)))
  }

  function Settled(v: Node): Node {
    match v
    case Leaf(t) => v
    case Object(es) => Object(Collect(es, End))
  }

  /** The tokens `sub` stand at position `p`. */
  predicate At(tokens: seq<Token>, p: nat, sub: seq<Token>) {
    p + |sub| <= |tokens| && tokens[p..p + |sub|] == sub
  }

  lemma AtParts(tokens: seq<Token>, p: nat, a: seq<Token>, b: seq<Token>)
    requires At(tokens, p, a + b)
    ensures At(tokens, p, a) && At(tokens, p + |a|, b)
  {
    assert a == (a + b)[..|a|] && b == (a + b)[|a|..];
  }

  lemma AtOne(tokens: seq<Token>, p: nat, t: Token)
    requires At(tokens, p, [t])
    ensures p < |tokens| && tokens[p] == t
  {
    assert tokens[p..p + 1][0] == tokens[p];
  }

  /** Where the parts of an entry stand. */
  lemma EntryParts(tokens: seq<Token>, p: nat, k: string, v: Node, next: Entries)
    requires At(tokens, p, TokensOf(Entry(k, v, next)))
    ensures p < |tokens| && tokens[p] == Text(k)
    ensures At(tokens, p + 1, NodeTokens(v)) && At(tokens, p + 1 + |NodeTokens(v)|, TokensOf(next))
    ensures |TokensOf(Entry(k, v, next))| == 1 + |NodeTokens(v)| + |TokensOf(next)|
  {
    AtParts(tokens, p, [Text(k)] + NodeTokens(v), TokensOf(next));
    AtParts(tokens, p, [Text(k)], NodeTokens(v));
    AtOne(tokens, p, Text(k));
  }

  lemma ObjectParts(tokens: seq<Token>, p: nat, es: Entries)
    requires At(tokens, p, NodeTokens(Object(es)))
    ensures p < |tokens| && tokens[p] == Open
    ensures At(tokens, p + 1, TokensOf(es)) && |NodeTokens(Object(es))| == |TokensOf(es)| + 2
    ensures p + 1 + |TokensOf(es)| < |tokens| && tokens[p + 1 + |TokensOf(es)|] == Close
  {
    AtParts(tokens, p, [Open] + TokensOf(es), [Close]);
    AtParts(tokens, p, [Open], TokensOf(es));
    AtOne(tokens, p, Open);
    AtOne(tokens, p + 1 + |TokensOf(es)|, Close);
  }

  /** The outcome of parsing the tokens of `es` from inside a block that has collected `result`. */
  lemma {:induction false} LoopReads(
      tokens: seq<Token>, p: nat, es: Entries, nested: bool, depth: nat, result: Entries)
    requires depth <= MAX_DEPTH && At(tokens, p, TokensOf(es))
    ensures p + |TokensOf(es)| <= |tokens|
    ensures Loop(tokens, p, nested, depth, result) ==
              if depth + Depth(es) <= MAX_DEPTH
              then Loop(tokens, p + |TokensOf(es)|, nested, depth, Collect(es, result))
              else Failed
    decreases es, 0
  {
    hide At, Put, Loop, Block, NodeTokens;
    AtFits(tokens, p, TokensOf(es));
    match es
    case End =>
    case Entry(k, v, next) =>
      EntryParts(tokens, p, k, v, next);
      var q := p + 1 + |NodeTokens(v)|;
      LoopReads(tokens, q, next, nested, depth, Put(result, k, Settled(v)));
      if v.Leaf? {
        AtOneLeaf(tokens, p + 1, v.text);
        LoopLeaf(tokens, p, nested, depth, result);
      } else {
        ObjectParts(tokens, p + 1, v.entries);
        LoopObject(tokens, p, nested, depth, result);
        BlockReads(tokens, p + 2, v.entries, depth + 1);
      }
  }

  /** The outcome of parsing an object's tokens from behind its opening brace. */
  lemma BlockReads(tokens: seq<Token>, p: nat, es: Entries, depth: nat)
    requires At(tokens, p, TokensOf(es))
    requires p + |TokensOf(es)| < |tokens| && tokens[p + |TokensOf(es)|] == Close
    ensures Block(tokens, p, true, depth) ==
              if depth + Depth(es) <= MAX_DEPTH then Parsed(Collect(es, End), p + |TokensOf(es)| + 1) else Failed
    decreases es, 1
  {
    hide *;
    BlockIs(tokens, p, depth);
    if depth <= MAX_DEPTH {
      LoopReads(tokens, p, es, true, depth, End);
      LoopCloses(tokens, p + |TokensOf(es)|, depth, Collect(es, End));
    }
  }

  lemma LoopLeaf(tokens: seq<Token>, p: nat, nested: bool, depth: nat, result: Entries)
    requires p + 1 < |tokens| && tokens[p].Text? && tokens[p + 1].Text?
    ensures Loop(tokens, p, nested, depth, result)
         == Loop(tokens, p + 2, nested, depth, Put(result, tokens[p].text, Leaf(tokens[p + 1].text)))
  {
    hide Put, Block;
  }

  lemma LoopObject(tokens: seq<Token>, p: nat, nested: bool, depth: nat, result: Entries)
    requires p + 1 < |tokens| && tokens[p].Text? && tokens[p + 1].Open?
    ensures Loop(tokens, p, nested, depth, result) ==
              match Block(tokens, p + 2, true, depth + 1)
              case Failed => Failed
              case Parsed(value, next) => Loop(tokens, next, nested, depth, Put(result, tokens[p].text, Object(value)))
  {
    hide Put, Block;
  }

  lemma LoopCloses(tokens: seq<Token>, p: nat, depth: nat, result: Entries)
    requires p < |tokens| && tokens[p].Close?
    ensures Loop(tokens, p, true, depth, result) == Parsed(result, p + 1)
  {
    hide Put, Block;
  }

  lemma BlockIs(tokens: seq<Token>, p: nat, depth: nat)
    requires p <= |tokens|
    ensures Block(tokens, p, true, depth) == if depth > MAX_DEPTH then Failed else Loop(tokens, p, true, depth, End)
  {
    hide Loop;
  }

  lemma AtFits(tokens: seq<Token>, p: nat, sub: seq<Token>)
    requires At(tokens, p, sub)
    ensures p + |sub| <= |tokens|
  {
  }

  lemma AtOneLeaf(tokens: seq<Token>, p: nat, t: string)
    requires At(tokens, p, NodeTokens(Leaf(t)))
    ensures p < |tokens| && tokens[p] == Text(t) && |NodeTokens(Leaf(t))| == 1
  {
    AtOne(tokens, p, Text(t));
  }

  /** Tokens of a document are accepted exactly up to the depth limit, and read as what they say. */
  lemma RenderedTokensParse(es: Entries)
    ensures ParseTokens(TokensOf(es)) == if Depth(es) <= 16 then Some(Collect(es, End)) else None
  {
    var tokens := TokensOf(es);
    assert tokens[0..0 + |tokens|] == tokens;
    LoopReads(tokens, 0, es, false, 0, End);
  }

  // ----- Only renderings are accepted -----

  /** What a successful loop has read. */
  lemma {:induction false} LoopSound(tokens: seq<Token>, p: nat, nested: bool, depth: nat, result: Entries)
    returns (es: Entries)
    requires p <= |tokens| && depth <= MAX_DEPTH && Loop(tokens, p, nested, depth, result).Parsed?
    ensures At(tokens, p, TokensOf(es)) && depth + Depth(es) <= MAX_DEPTH
    ensures var r := Loop(tokens, p, nested, depth, result);
            var q := p + |TokensOf(es)|;
            && r.entries == Collect(es, result)
            && (if nested then q < |tokens| && tokens[q] == Close && r.position == q + 1
                else q == |tokens| && r.position == q)
    decreases |tokens| - p
  {
    hide Put, Loop, Block, At, NodeTokens;
    LoopCases(tokens, p, nested, depth, result);
    if p == |tokens| || (tokens[p].Close? && nested) {
      es := End;
      NothingAt(tokens, p);
    } else if tokens[p + 1].Text? {
      var key, value := tokens[p].text, tokens[p + 1].text;
      LoopLeaf(tokens, p, nested, depth, result);
      var rest := LoopSound(tokens, p + 2, nested, depth, Put(result, key, Leaf(value)));
      es := Entry(key, Leaf(value), rest);
      LeafJoined(tokens, p, key, value, rest);
    } else {
      var key := tokens[p].text;
      LoopObject(tokens, p, nested, depth, result);
      BlockIs(tokens, p + 2, depth + 1);
      var inner := LoopSound(tokens, p + 2, true, depth + 1, End);
      var q := p + 2 + |TokensOf(inner)| + 1;
      var rest := LoopSound(tokens, q, nested, depth, Put(result, key, Object(Collect(inner, End))));
      es := Entry(key, Object(inner), rest);
      ObjectJoined(tokens, p, key, inner, rest);
    }
  }

  lemma NothingAt(tokens: seq<Token>, p: nat)
    requires p <= |tokens|
    ensures At(tokens, p, [])
  {
  }

  /** What a loop that succeeds can have in front of it. */
  lemma LoopCases(tokens: seq<Token>, p: nat, nested: bool, depth: nat, result: Entries)
    requires p <= |tokens| && Loop(tokens, p, nested, depth, result).Parsed?
    ensures p == |tokens| ==> !nested && Loop(tokens, p, nested, depth, result) == Parsed(result, p)
    ensures p < |tokens| && tokens[p].Close? ==> nested && Loop(tokens, p, nested, depth, result) == Parsed(result, p + 1)
    ensures p < |tokens| && !tokens[p].Close? ==>
              tokens[p].Text? && p + 1 < |tokens| && (tokens[p + 1].Text? || tokens[p + 1].Open?)
  {
    hide Put, Block;
  }

  lemma LeafJoined(tokens: seq<Token>, p: nat, key: string, value: string, rest: Entries)
    requires p + 1 < |tokens| && tokens[p] == Text(key) && tokens[p + 1] == Text(value)
    requires At(tokens, p + 2, TokensOf(rest))
    ensures var es := Entry(key, Leaf(value), rest);
            At(tokens, p, TokensOf(es)) && |TokensOf(es)| == 2 + |TokensOf(rest)|
  {
  }

  lemma ObjectJoined(tokens: seq<Token>, p: nat, key: string, inner: Entries, rest: Entries)
    requires p + 1 < |tokens| && tokens[p] == Text(key) && tokens[p + 1] == Open
    requires At(tokens, p + 2, TokensOf(inner))
    requires var c := p + 2 + |TokensOf(inner)|; c < |tokens| && tokens[c] == Close && At(tokens, c + 1, TokensOf(rest))
    ensures var es := Entry(key, Object(inner), rest);
            At(tokens, p, TokensOf(es)) && |TokensOf(es)| == 3 + |TokensOf(inner)| + |TokensOf(rest)|
  {
    var a, b := TokensOf(inner), TokensOf(rest);
    assert tokens[p..p + 3 + |a| + |b|] == [Text(key)] + ([Open] + a + [Close]) + b;
  }

  /**
    The parser accepts a token list exactly when it is the rendering of a document nested at
    most 16 deep, and the result is what that document says.
   */
  lemma AcceptsExactlyDocuments(tokens: seq<Token>)
    ensures ParseTokens(tokens).Some? <==> exists es :: TokensOf(es) == tokens && Depth(es) <= 16
    ensures forall es | TokensOf(es) == tokens ::
              ParseTokens(tokens) == if Depth(es) <= 16 then Some(Collect(es, End)) else None
  {
    if ParseTokens(tokens).Some? {
      var es := LoopSound(tokens, 0, false, 0, End);
      assert tokens[0..0 + |tokens|] == tokens;
    }
    forall es | TokensOf(es) == tokens
      ensures ParseTokens(tokens) == if Depth(es) <= MAX_DEPTH then Some(Collect(es, End)) else None
    {
      RenderedTokensParse(es);
    }
  }

  // ----- Truncation -----

  /** Opening minus closing braces. */
  function Balance(tokens: seq<Token>): int {
    if tokens == [] then 0
    else (match tokens[0] case Open => 1 case Close => -1 case Text(_) => 0) + Balance(tokens[1..])
  }

  lemma {:induction false} BalanceConcat(a: seq<Token>, b: seq<Token>)
    ensures Balance(a + b) == Balance(a) + Balance(b)
  {
    if a == [] {
      assert a + b == b;
    } else {
      assert (a + b)[1..] == a[1..] + b;
      BalanceConcat(a[1..], b);
    }
  }

  lemma OneBalance(t: Token)
    ensures Balance([t]) == match t case Open => 1 case Close => -1 case Text(_) => 0
  {
    assert [t][1..] == [];
  }

  lemma {:induction false} DocumentsBalance(es: Entries)
    ensures Balance(TokensOf(es)) == 0
    decreases es
  {
    match es
    case End =>
    case Entry(k, v, next) =>
      DocumentsBalance(next);
      OneBalance(Text(k));
      BalanceConcat([Text(k)] + NodeTokens(v), TokensOf(next));
      BalanceConcat([Text(k)], NodeTokens(v));
      match v
      case Leaf(t) => OneBalance(Text(t));
      case Object(inner) =>
        DocumentsBalance(inner);
        OneBalance(Open);
        OneBalance(Close);
        BalanceConcat([Open] + TokensOf(inner), [Close]);
        BalanceConcat([Open], TokensOf(inner));
  }

  /** A token list that ends inside an open object is rejected, whatever it was cut from. */
  lemma CutInsideObjectRejected(tokens: seq<Token>)
    requires Balance(tokens) > 0
    ensures ParseTokens(tokens) == None
  {
    AcceptsExactlyDocuments(tokens);
    hide ParseTokens;
    forall es | TokensOf(es) == tokens ensures false {
      DocumentsBalance(es);
    }
  }

  // ----- Distinct keys -----

  function Keys(es: Entries): set<string> {
    match es
    case End => {}
    case Entry(k, _, next) => {k} + Keys(next)
  }

  predicate Distinct(es: Entries) {
    match es
    case End => true
    case Entry(k, v, next) => k !in Keys(next) && Distinct(next) && (v.Object? ==> Distinct(v.entries))
  }

  function Append(a: Entries, b: Entries): Entries {
    match a
    case End => b
    case Entry(k, v, next) => Entry(k, v, Append(next, b))
  }

  lemma {:induction false} PutNew(es: Entries, k: string, v: Node)
    requires k !in Keys(es)
    ensures Put(es, k, v) == Append(es, Entry(k, v, End)) && Keys(Put(es, k, v)) == Keys(es) + {k}
  {
    match es
    case End =>
    case Entry(_, _, next) => PutNew(next, k, v);
  }

  lemma {:induction false} AppendAssoc(a: Entries, b: Entries, c: Entries)
    ensures Append(Append(a, b), c) == Append(a, Append(b, c)) && Append(a, End) == a
  {
    match a
    case End =>
    case Entry(_, _, next) => AppendAssoc(next, b, c);
  }

  /** With distinct keys nothing is overwritten. */
  lemma {:induction false} DistinctCollect(es: Entries, result: Entries)
    requires Distinct(es) && Keys(es) !! Keys(result)
    ensures Collect(es, result) == Append(result, es)
    decreases es
  {
    match es
    case End => AppendAssoc(result, End, End);
    case Entry(k, v, next) =>
      if v.Object? {
        DistinctCollect(v.entries, End);
      }
      PutNew(result, k, v);
      DistinctCollect(next, Put(result, k, v));
      AppendAssoc(result, Entry(k, v, End), next);
  }

  // ----- Text level -----

  function Escape(s: string): string {
    if s == "" then ""
    else (if s[0] == '\\' || s[0] == '"' then ['\\', s[0]] else [s[0]]) + Escape(s[1..])
  }

  function TokenText(t: Token): string {
    match t
    case Text(s) => "\"" + Escape(s) + "\""
    case Open => "{"
    case Close => "}"
  }

  /** Whitespace and comments; inside a text every comment ends with its line. */
  predicate IsGap(g: string, last: bool)
    decreases |g|
  {
    || g == ""
    || (IsSpace(g[0]) && IsGap(g[1..], last))
    || (|g| >= 2 && g[0] == '/' && g[1] == '/' &&
        var n := 2 + LineLength(g[2..]);
        if n == |g| then last else IsGap(g[n..], last))
  }

  predicate AreGaps(gaps: seq<string>) {
    |gaps| > 0 && forall i | 0 <= i < |gaps| :: IsGap(gaps[i], i == |gaps| - 1)
  }

  /** Tokens written out with a gap before each and one at the end. */
  function Render(tokens: seq<Token>, gaps: seq<string>): string
    requires |gaps| == |tokens| + 1
  {
    if tokens == [] then gaps[0]
    else gaps[0] + (TokenText(tokens[0]) + Render(tokens[1..], gaps[1..]))
  }

  lemma {:induction false} EscapedLength(s: string, rest: string)
    ensures StringLength(Escape(s) + "\"" + rest) == Some(|Escape(s)|)
  {
    if s == "" {
      assert (Escape(s) + "\"" + rest)[0] == '"';
    } else {
      EscapedLength(s[1..], rest);
      EscapedStep(s[0], Escape(s[1..]), rest);
    }
  }

  lemma EscapedStep(c: char, e: string, rest: string)
    requires StringLength(e + "\"" + rest) == Some(|e|)
    ensures var x := (if c == '\\' || c == '"' then ['\\', c] else [c]) + e;
            StringLength(x + "\"" + rest) == Some(|x|)
  {
    var t' := e + "\"" + rest;
    if c == '\\' || c == '"' {
      var t := ['\\', c] + e + "\"" + rest;
      assert t[2..] == t' && t[0] == '\\' && t[1] == c;
    } else {
      var t := [c] + e + "\"" + rest;
      assert t[1..] == t' && t[0] == c;
    }
  }

  lemma {:induction false} UnescapeEscape(s: string)
    ensures Unescape(Escape(s)) == s
  {
    if s == "" {
    } else {
      UnescapeEscape(s[1..]);
      var e, r := Escape(s), Escape(s[1..]);
      if s[0] == '\\' || s[0] == '"' {
        assert e == ['\\', s[0]] + r;
        assert e[2..] == r && e[0] == '\\' && e[1] == s[0];
      } else {
        assert e == [s[0]] + r;
        assert e[1..] == r && e[0] == s[0];
      }
      assert s == [s[0]] + s[1..];
    }
  }

  /** A written token is read back, whatever follows. */
  lemma TokenReadBack(t: Token, rest: string)
    ensures TokenText(t) + rest != ""
    ensures MatchFirst(TokenText(t) + rest) == Match(|TokenText(t)|, Some(t))
  {
    hide Escape, StringLength, Unescape, SpaceLength, LineLength;
    if t.Text? {
      EscapedLength(t.text, rest);
      UnescapeEscape(t.text);
      MatchQuoted(Escape(t.text), rest);
    } else {
      var s := TokenText(t) + rest;
      assert s[0] == if t.Open? then '{' else '}';
    }
  }

  lemma MatchQuoted(e: string, rest: string)
    requires StringLength(e + "\"" + rest) == Some(|e|)
    ensures var s := "\"" + e + "\"" + rest;
            s != "" && MatchFirst(s) == Match(|e| + 2, Some(Text(Unescape(e))))
  {
    hide StringLength, Unescape, SpaceLength, LineLength;
    var s := "\"" + e + "\"" + rest;
    assert s[0] == '"' && s[1..] == e + "\"" + rest;
    assert s[1..|e| + 1] == e;
  }

  lemma ReadToken(t: Token, rest: string)
    ensures Tokenize(TokenText(t) + rest) == Before([t], Tokenize(rest))
  {
    hide TokenText, MatchFirst;
    TokenReadBack(t, rest);
    assert (TokenText(t) + rest)[|TokenText(t)|..] == rest;
  }

  /** A leading blank makes no difference. */
  lemma SkipSpace(s: string)
    requires s != "" && IsSpace(s[0])
    ensures Tokenize(s) == Tokenize(s[1..])
  {
    hide IsSpace;
    var r := s[1..];
    assert MatchFirst(s) == Match(1 + SpaceLength(r), None);
    assert s[1 + SpaceLength(r)..] == r[SpaceLength(r)..];
    NoTokenHere(s, 1 + SpaceLength(r));
    if SpaceLength(r) > 0 {
      assert MatchFirst(r) == Match(SpaceLength(r), None);
      NoTokenHere(r, SpaceLength(r));
    } else {
      assert r[0..] == r;
    }
  }

  lemma NoTokenHere(s: string, n: nat)
    requires s != "" && MatchFirst(s) == Match(n, None)
    ensures Tokenize(s) == Tokenize(s[n..])
  {
    hide MatchFirst;
    if Tokenize(s[n..]).Some? {
      NilLeft(Tokenize(s[n..]).value);
    }
  }

  /** A gap before further text is skipped; a gap at the end yields nothing. */
  lemma {:induction false} SkipGap(g: string, rest: string, last: bool)
    requires IsGap(g, last) && (last ==> rest == "")
    ensures Tokenize(g + rest) == Tokenize(rest)
    decreases |g|
  {
    hide IsSpace, Tokenize;
    var s := g + rest;
    if g == "" {
      NilLeft(rest);
    } else if IsSpace(g[0]) && IsGap(g[1..], last) {
      assert s[0] == g[0] && s[1..] == g[1..] + rest;
      SkipSpace(s);
      SkipGap(g[1..], rest, last);
    } else {
      var n := 2 + LineLength(g[2..]);
      CommentMatch(g, rest);
      if n == |g| {
        NilLeft(g);
        NoTokenHere(s, n);
        assert s[n..] == "" && rest == "";
      } else {
        NoTokenHere(s, n);
        assert s[n..] == g[n..] + rest;
        SkipGap(g[n..], rest, last);
      }
    }
  }

  lemma CommentMatch(g: string, rest: string)
    requires |g| >= 2 && g[0] == '/' && g[1] == '/'
    requires 2 + LineLength(g[2..]) == |g| ==> rest == ""
    ensures MatchFirst(g + rest) == Match(2 + LineLength(g[2..]), None)
  {
    var s := g + rest;
    assert s[0] == '/' && s[1] == '/' && s[2..] == g[2..] + rest;
    LineLengthPrefix(g[2..], rest);
  }

  lemma {:induction false} LineLengthPrefix(g: string, rest: string)
    requires LineLength(g) == |g| ==> rest == ""
    ensures LineLength(g + rest) == LineLength(g)
  {
    if g == "" || g[0] == '\n' {
      assert g != "" ==> (g + rest)[0] == g[0];
    } else {
      assert (g + rest)[1..] == g[1..] + rest && (g + rest)[0] == g[0];
      LineLengthPrefix(g[1..], rest);
    }
  }

  /** Tokenizing undoes rendering, with any whitespace and comments between the tokens. */
  lemma {:induction false} TokenizeRender(tokens: seq<Token>, gaps: seq<string>)
    requires |gaps| == |tokens| + 1 && AreGaps(gaps)
    ensures Tokenize(Render(tokens, gaps)) == Some(tokens)
    decreases |tokens|
  {
    hide IsGap, Tokenize;
    if tokens == [] {
      NilLeft(gaps[0]);
      SkipGap(gaps[0], "", true);
      NothingToTokenize();
    } else {
      var rest := Render(tokens[1..], gaps[1..]);
      assert AreGaps(gaps[1..]) by {
        assert forall i | 0 <= i < |gaps[1..]| :: gaps[1..][i] == gaps[i + 1];
      }
      TokenizeRender(tokens[1..], gaps[1..]);
      ReadToken(tokens[0], rest);
      assert IsGap(gaps[0], false);
      SkipGap(gaps[0], TokenText(tokens[0]) + rest, false);
      HeadTail(tokens);
    }
  }

  lemma NothingToTokenize()
    ensures Tokenize("") == Some([])
  {
  }

  /**
    For every document with distinct keys, parsing its rendering with arbitrary whitespace
    and comments returns the document if it is nested at most 16 deep, and fails otherwise.
   */
  lemma ParseInvertsRender(es: Entries, gaps: seq<string>)
    requires Distinct(es) && |gaps| == |TokensOf(es)| + 1 && AreGaps(gaps)
    ensures ParseVdf(Render(TokensOf(es), gaps)) == if Depth(es) <= 16 then Some(es) else None
  {
    hide Tokenize, ParseTokens, Render;
    TokenizeRender(TokensOf(es), gaps);
    RenderedTokensParse(es);
    DistinctCollect(es, End);
  }
}
