/**
  Which texts the KeyValues tokenizer accepts, and what duplicate keys lead to
  (scripts/steamshine-steam-cache.py:19-61).
 */
module KeyValuesText {
  import opened Options
  import opened Lists
  import opened KeyValuesSpec
  import opened KeyValuesTheorems

  // ----- Lexemes -----

  /** The inside of a quoted string: escape pairs, and characters that need no escape. A line end cannot be escaped. */
  predicate IsBody(b: string) {
    || b == ""
    || (b[0] == '\\' && |b| >= 2 && b[1] != '\n' && IsBody(b[2..]))
    || (b[0] != '\\' && b[0] != '"' && IsBody(b[1..]))
  }

  datatype Lexeme = Quoted(body: string) | OpenBrace | CloseBrace | Blank(c: char) | Comment(body: string)

  function TextOf(l: Lexeme): string {
    match l
    case Quoted(b) => "\"" + b + "\""
    case OpenBrace => "{"
    case CloseBrace => "}"
    case Blank(c) => [c]
    case Comment(b) => "//" + b
  }

  function WholeText(ls: seq<Lexeme>): string {
    if ls == [] then "" else TextOf(ls[0]) + WholeText(ls[1..])
  }

  /** A comment reaches to the end of its line. */
  predicate IsText(ls: seq<Lexeme>) {
    ls == [] ||
    (IsText(ls[1..])
     && match ls[0]
        case Quoted(b) => IsBody(b)
        case Blank(c) => IsSpace(c)
        case Comment(b) => '\n' !in b && (|ls| == 1 || ls[1] == Blank('\n'))
        case _ => true)
  }

  function TokensIn(ls: seq<Lexeme>): seq<Token> {
    if ls == [] then []
    else
      (match ls[0]
       case Quoted(b) => [Text(Unescape(b))]
       case OpenBrace => [Open]
       case CloseBrace => [Close]
       case _ => [])
      + TokensIn(ls[1..])
  }

  // ----- Texts are tokenized -----

  lemma {:induction false} BodyLength(b: string, rest: string)
    requires IsBody(b)
    ensures StringLength(b + "\"" + rest) == Some(|b|)
  {
    var s := b + "\"" + rest;
    if b == "" {
      assert s[0] == '"';
    } else if b[0] == '\\' {
      BodyLength(b[2..], rest);
      assert s[0] == b[0] && s[1] == b[1] && s[2..] == b[2..] + "\"" + rest;
    } else {
      BodyLength(b[1..], rest);
      assert s[0] == b[0] && s[1..] == b[1..] + "\"" + rest;
    }
  }

  lemma {:induction false} LineEnds(b: string, rest: string)
    requires '\n' !in b && (rest == "" || rest[0] == '\n')
    ensures LineLength(b + rest) == |b|
  {
    if b == "" {
      NilLeft(rest);
    } else {
      assert b[0] in b && forall c | c in b[1..] :: c in b;
      LineEnds(b[1..], rest);
      assert (b + rest)[0] == b[0] && (b + rest)[1..] == b[1..] + rest;
    }
  }

  /** One lexeme in front of a text. */
  lemma ReadLexeme(l: Lexeme, rest: string)
    requires match l
             case Quoted(b) => IsBody(b)
             case Blank(c) => IsSpace(c)
             case Comment(b) => '\n' !in b && (rest == "" || rest[0] == '\n')
             case _ => true
    ensures Tokenize(TextOf(l) + rest) == Before(TokensIn([l]), Tokenize(rest))
  {
    hide Tokenize, StringLength, LineLength, IsSpace, IsBody, Unescape;
    var s := TextOf(l) + rest;
    OneLexeme(l);
    BeforeNone(Tokenize(rest));
    match l
    case Quoted(b) =>
      BodyLength(b, rest);
      MatchQuoted(b, rest);
      QuotedToken(b, rest);
    case OpenBrace => ReadToken(Open, rest);
    case CloseBrace => ReadToken(Close, rest);
    case Blank(c) =>
      assert s[0] == c && s[1..] == rest;
      SkipSpace(s);
    case Comment(b) =>
      LineEnds(b, rest);
      CommentHere(b, rest);
      NoTokenHere(s, 2 + |b|);
      assert s[2 + |b|..] == rest;
  }

  lemma OneLexeme(l: Lexeme)
    ensures TokensIn([l]) ==
              match l
              case Quoted(b) => [Text(Unescape(b))]
              case OpenBrace => [Open]
              case CloseBrace => [Close]
              case _ => []
  {
    hide Unescape;
    assert [l][1..] == [];
  }

  lemma BeforeNone(r: Option<seq<Token>>)
    ensures Before([], r) == r
  {
    if r.Some? {
      NilLeft(r.value);
    }
  }

  lemma QuotedToken(b: string, rest: string)
    requires var s := "\"" + b + "\"" + rest; s != "" && MatchFirst(s) == Match(|b| + 2, Some(Text(Unescape(b))))
    ensures Tokenize("\"" + b + "\"" + rest) == Before([Text(Unescape(b))], Tokenize(rest))
  {
    var s := "\"" + b + "\"" + rest;
    hide MatchFirst, Unescape;
    assert s[|b| + 2..] == rest;
  }

  lemma CommentHere(b: string, rest: string)
    requires LineLength(b + rest) == |b|
    ensures MatchFirst("//" + b + rest) == Match(2 + |b|, None)
  {
    var s := "//" + b + rest;
    assert s[0] == '/' && s[1] == '/' && s[2..] == b + rest;
    hide LineLength;
  }

  lemma {:induction false} TextIsTokenized(ls: seq<Lexeme>)
    requires IsText(ls)
    ensures Tokenize(WholeText(ls)) == Some(TokensIn(ls))
  {
    hide Tokenize;
    if ls == [] {
      NothingToTokenize();
    } else {
      var rest := ls[1..];
      TextIsTokenized(rest);
      if ls[0].Comment? && rest != [] {
        assert WholeText(rest)[0] == '\n';
      }
      ReadLexeme(ls[0], WholeText(rest));
      OneLexeme(ls[0]);
      hide TextOf;
    }
  }

  // ----- Only texts are -----

  lemma {:induction false} BodyFound(s: string)
    requires StringLength(s).Some?
    ensures var n := StringLength(s).value; n < |s| && s[n] == '"' && IsBody(s[..n])
  {
    var n := StringLength(s).value;
    if s[0] == '"' {
    } else if s[0] == '\\' {
      BodyFound(s[2..]);
      assert s[..n][2..] == s[2..][..n - 2];
    } else {
      BodyFound(s[1..]);
      assert s[..n][1..] == s[1..][..n - 1];
    }
  }

  lemma StartsWithBlank(ls: seq<Lexeme>)
    requires IsText(ls) && WholeText(ls) != "" && WholeText(ls)[0] == '\n'
    ensures ls[0] == Blank('\n')
  {
  }

  /** The first lexeme of a text that has a match at its start. */
  lemma FirstLexeme(s: string) returns (l: Lexeme, rest: string)
    requires s != "" && MatchFirst(s).Match?
    ensures s == TextOf(l) + rest && |rest| < |s|
    ensures match l
            case Quoted(b) => IsBody(b)
            case Blank(c) => IsSpace(c)
            case Comment(b) => '\n' !in b && (rest == "" || rest[0] == '\n')
            case _ => true
  {
    if IsSpace(s[0]) {
      l, rest := Blank(s[0]), s[1..];
    } else if s[0] == '/' {
      var n := LineLength(s[2..]);
      l, rest := Comment(s[2..][..n]), s[2..][n..];
      assert s == "//" + s[2..];
    } else if s[0] == '"' {
      BodyFound(s[1..]);
      var n := StringLength(s[1..]).value;
      l, rest := Quoted(s[1..][..n]), s[n + 2..];
      assert s == "\"" + s[1..][..n] + "\"" + rest;
    } else {
      l, rest := if s[0] == '{' then OpenBrace else CloseBrace, s[1..];
    }
  }

  lemma {:induction false} TokenizedIsText(s: string) returns (ls: seq<Lexeme>)
    requires Tokenize(s).Some?
    ensures IsText(ls) && WholeText(ls) == s
    decreases |s|
  {
    if s == "" {
      ls := [];
    } else {
      var l, rest := FirstLexeme(s);
      ReadLexeme(l, rest);
      hide Tokenize, MatchFirst, IsBody, IsSpace;
      var tail := TokenizedIsText(rest);
      ls := [l] + tail;
      assert ls[1..] == tail;
      if l.Comment? && rest != "" {
        StartsWithBlank(tail);
      }
    }
  }

  /** A text is tokenized if and only if it is written in lexemes, and then to the tokens they stand for. */
  lemma TokenizesExactly(s: string)
    ensures Tokenize(s).Some? <==> exists ls :: IsText(ls) && WholeText(ls) == s
    ensures forall ls | IsText(ls) && WholeText(ls) == s :: Tokenize(s) == Some(TokensIn(ls))
  {
    hide Tokenize, IsText, WholeText, TokensIn;
    forall ls | IsText(ls) && WholeText(ls) == s ensures Tokenize(s) == Some(TokensIn(ls)) {
      TextIsTokenized(ls);
    }
    if Tokenize(s).Some? {
      var ls := TokenizedIsText(s);
    }
  }

  // ----- Characters -----

  /** Which ASCII characters separate tokens. */
  lemma AsciiSpaces(c: char)
    requires c < 128 as char
    ensures IsSpace(c) <==> c in {'\t', '\n', 11 as char, 12 as char, '\r', 28 as char, 29 as char, 30 as char, 31 as char, ' '}
  {
  }

  /** Backslash and quote lose their backslash; every other escape pair and every plain character stays. */
  lemma UnescapeByPieces(c: char, rest: string)
    ensures c == '\\' || c == '"' ==> Unescape(['\\', c] + rest) == [c] + Unescape(rest)
    ensures c != '\\' && c != '"' ==> Unescape(['\\', c] + rest) == ['\\', c] + Unescape(rest)
    ensures c != '\\' ==> Unescape([c] + rest) == [c] + Unescape(rest)
    ensures Unescape("") == ""
  {
    var pair, one := ['\\', c] + rest, [c] + rest;
    assert pair[0] == '\\' && pair[1] == c && pair[2..] == rest && pair[1..] == one;
    assert one[0] == c && one[1..] == rest;
    if c != '\\' && c != '"' {
      assert Unescape(pair) == ['\\'] + Unescape(one);
      assert ['\\'] + ([c] + Unescape(rest)) == ['\\', c] + Unescape(rest);
    }
  }

  // ----- Duplicate keys -----

  function Find(es: Entries, key: string): Option<Node> {
    match es
    case End => None
    case Entry(k, v, next) => if k == key then Some(v) else Find(next, key)
  }

  /** The last definition of a key. */
  function LastOf(es: Entries, key: string): Option<Node> {
    match es
    case End => None
    case Entry(k, v, next) =>
      var later := LastOf(next, key);
      if later.None? && k == key then Some(v) else later
  }

  function KeyList(es: Entries): seq<string> {
    match es
    case End => []
    case Entry(k, _, next) => [k] + KeyList(next)
  }

  /** Each key once, in the order of first definitions, after those already there. */
  function FirstKeys(es: Entries, keys: seq<string>): seq<string> {
    match es
    case End => keys
    case Entry(k, _, next) => FirstKeys(next, if k in keys then keys else keys + [k])
  }

  lemma {:induction false} PutFinds(es: Entries, key: string, value: Node, other: string)
    ensures Find(Put(es, key, value), other) == if other == key then Some(value) else Find(es, other)
    ensures KeyList(Put(es, key, value)) == if key in KeyList(es) then KeyList(es) else KeyList(es) + [key]
  {
    match es
    case End =>
    case Entry(k, v, next) =>
      PutFinds(next, key, value, other);
      if key != k && key !in KeyList(next) {
        assert [k] + (KeyList(next) + [key]) == [k] + KeyList(next) + [key];
      }
  }

  /** The parsed object has every key once, where it was first defined, with the value it was last given. */
  lemma {:induction false} LastDefinitionWins(es: Entries, result: Entries, key: string)
    ensures Find(Collect(es, result), key) ==
              (match LastOf(es, key) case Some(v) => Some(Settled(v)) case None => Find(result, key))
    ensures KeyList(Collect(es, result)) == FirstKeys(es, KeyList(result))
    decreases es
  {
    match es
    case End =>
    case Entry(k, v, next) =>
      PutFinds(result, k, Settled(v), key);
      LastDefinitionWins(next, Put(result, k, Settled(v)), key);
      hide Settled, Put;
  }
}
