/** The loops of `parse_vdf` on the growing token list and the shared position. */
module KeyValues {
  import opened Options
  import opened KeyValuesSpec
  import opened Lists

  class VdfParser {
    var tokens: seq<Token>
    var position: nat

    constructor ()
      ensures tokens == [] && position == 0
    {
      tokens := [];
      position := 0;
    }

    /** The tokenizer loop; `false` stands for a raised error. */
    method ReadTokens(text: string) returns (ok: bool)
      modifies this`tokens
      ensures ok == Tokenize(text).Some?
      ensures ok ==> tokens == Tokenize(text).value
    {
      hide MatchFirst;
      tokens := [];
      var offset := 0;
      BeforeNothing(Tokenize(text));
      assert text[0..] == text;
      while offset < |text|
        invariant offset <= |text|
        invariant Tokenize(text) == Before(tokens, Tokenize(text[offset..]))
      {
        var m := MatchFirst(text[offset..]);
        if m.NoMatch? {
          return false;
        }
        var found := if m.token.Some? then [m.token.value] else [];
        assert text[offset..][m.length..] == text[offset + m.length..];
        BeforeBefore(tokens, found, Tokenize(text[offset + m.length..]));
        tokens := tokens + found;
        offset := offset + m.length;
      }
      assert Tokenize(text[offset..]) == Some([]) && tokens + [] == tokens;
      return true;
    }

    /** `block`: reads one object and moves the shared position. */
    method ReadBlock(nested: bool, depth: nat) returns (ok: bool, result: Entries)
      requires position <= |tokens|
      modifies this`position
      ensures position <= |tokens|
      ensures ok ==> Block(tokens, old(position), nested, depth) == Parsed(result, position)
      ensures ok ==> old(position) <= position
      ensures !ok ==> Block(tokens, old(position), nested, depth) == Failed
      decreases |tokens| - position
    {
      result := End;
      if depth > MAX_DEPTH {
        return false, End;
      }
      while position < |tokens|
        invariant old(position) <= position <= |tokens|
        invariant Block(tokens, old(position), nested, depth) == Loop(tokens, position, nested, depth, result)
        decreases |tokens| - position
      {
        var token := tokens[position];
        if token.Close? && nested {
          position := position + 1;
          return true, result;
        }
        position := position + 1;
        if !token.Text? || position == |tokens| {
          return false, End;
        }
        var value := tokens[position];
        position := position + 1;
        match value {
          case Open =>
            var inner, entries := ReadBlock(true, depth + 1);
            if !inner {
              return false, End;
            }
            result := Put(result, token.text, Object(entries));
          case Text(text) =>
            result := Put(result, token.text, Leaf(text));
          case Close =>
            return false, End;
        }
      }
      if nested {
        return false, End;
      }
      return true, result;
    }

    method Parse(text: string) returns (document: Option<Entries>)
      modifies this
      ensures document == ParseVdf(text)
    {
      var ok := ReadTokens(text);
      if !ok {
        return None;
      }
      position := 0;
      var parsed, result := ReadBlock(false, 0);
      return if parsed then Some(result) else None;
    }
  }

  lemma BeforeNothing(r: Option<seq<Token>>)
    ensures Before([], r) == r
  {
    if r.Some? {
      assert [] + r.value == r.value;
    }
  }

  lemma BeforeBefore(a: seq<Token>, b: seq<Token>, r: Option<seq<Token>>)
    ensures Before(a, Before(b, r)) == Before(a + b, r)
  {
    if r.Some? {
      Assoc(a, b, r.value);
    }
  }
}
