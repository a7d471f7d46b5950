/**
 * The tokenizer of the front end: one pass over the characters of the
 * source that emits tree, delimiter, symbol and string tokens, with a
 * string mode entered at `{` and left at the `}` that balances it.
 *
 * `Feed` is one iteration of the loop as a function of the scanner state,
 * `Prefix` the state after a prefix of the input and `Tokenization` the
 * whole run; the method `Tokenize` performs the loop on a mutable `Word`
 * and is proved to compute `Tokenization`.
 */
module Tokenizer {
  import opened Wrappers

  datatype Kind = TreeKind | SymbolKind | DelimKind | StringKind

  /** Where a token was found; -1 in a field that was never set. */
  datatype Location = Location(start: int, end: int, line: int, col: int)

  const NoLocation: Location := Location(-1, -1, -1, -1)

  /** Tokens compare by kind, text and location, as the dataclasses do. */
  datatype Token = Token(kind: Kind, s: string, loc: Location)

  /** `Tree()`: the tree token with the default location. */
  const TreeToken: Token := Token(TreeKind, "^", NoLocation)

  /** `Delim(s)` with the default location. */
  function DelimToken(s: string): (t: Token)
    ensures t.kind == DelimKind && t.s == s && t.loc == NoLocation
  {
    Token(DelimKind, s, NoLocation)
  }

  /** How `tokenize` ends: the token list, a failed `assert`, or the RuntimeError for an unbalanced string. */
  datatype Tokenized = Tokens(tokens: seq<Token>) | AssertionFailed | Unbalanced

  predicate IsDelimiter(c: char)
  {
    c == ')' || c == '(' || c == '[' || c == ']' || c == ','
  }

  /** `str.isspace` on one character. */
  predicate IsSpace(c: char)
  {
    c == ' ' || ('\t' <= c <= '\r') || ('\U{1C}' <= c <= '\U{1F}') || c == '\U{85}' || c == '\U{A0}' ||
    c == '\U{1680}' || ('\U{2000}' <= c <= '\U{200A}') || c == '\U{2028}' || c == '\U{2029}' ||
    c == '\U{202F}' || c == '\U{205F}' || c == '\U{3000}'
  }

  /** The characters that end a symbol outside a string. */
  predicate IsSpecial(c: char)
  {
    c == '^' || IsDelimiter(c) || c == '{' || c == '}' || IsSpace(c)
  }

  /** The pending word: its characters and the location it will be flushed with. */
  class Word {
    var word: seq<char>
    var start: int
    var end: int
    var line: int
    var col: int

    constructor (s: int, e: int, ln: int, c: int)
      ensures word == [] && start == s && end == e && line == ln && col == c
    {
      word := [];
      start, end, line, col := s, e, ln, c;
    }

    method Add(letter: char)
      modifies this`word
      ensures word == old(word) + [letter]
    {
      word := word + [letter];
    }

    method Reset()
      modifies this`word
      ensures word == []
    {
      word := [];
    }

    /** `valid`: the word is non-empty. */
    function IsValid(): (r: bool)
      reads this
      ensures r <==> |word| > 0
    {
      word != []
    }
  }

  /** The variables of `tokenize` between two characters. */
  datatype Scanner = Scanner(
    line: int, col: int, inString: bool, blockLevel: int,
    word: string, wordLine: int, wordCol: int, tokens: seq<Token>)

  const Start: Scanner := Scanner(1, 1, false, -1, [], 1, 1, [])

  /** `flush_word`: a non-empty word becomes a token and the next word starts at the current position. */
  function Flush(sc: Scanner, kind: Kind): (r: Scanner)
    ensures sc.word == [] ==> r == sc
    ensures sc.word != [] ==>
      r.tokens == sc.tokens + [Token(kind, sc.word, Location(-1, -1, sc.wordLine, sc.wordCol))] &&
      r.word == [] && r.wordLine == sc.line && r.wordCol == sc.col
    ensures r.line == sc.line && r.col == sc.col && r.inString == sc.inString && r.blockLevel == sc.blockLevel
  {
    if sc.word == [] then sc
    else sc.(tokens := sc.tokens + [Token(kind, sc.word, Location(-1, -1, sc.wordLine, sc.wordCol))],
             wordLine := sc.line, wordCol := sc.col, word := [])
  }

  /** One iteration of the loop on character `b` at index `i`; `None` is a failed `assert`. */
  function Feed(sc: Scanner, i: nat, b: char): Option<Scanner>
  {
    if !sc.inString then
      if b == '^' then
        var f := Flush(sc, SymbolKind);
        Some(f.(tokens := f.tokens + [Token(TreeKind, "^", Location(i, i + 1, f.line, f.col))], col := f.col + 1))
      else if IsDelimiter(b) then
        var f := Flush(sc, SymbolKind);
        Some(f.(tokens := f.tokens + [Token(DelimKind, [b], Location(i, i + 1, f.line, f.col))], col := f.col + 1))
      else if b == '{' then Some(sc.(inString := true, col := sc.col + 1))
      else if b == '}' then None
      else if b == '\n' then
        var f := Flush(sc.(line := sc.line + 1, col := 0), SymbolKind);
        Some(f.(col := f.col + 1))
      else if IsSpace(b) then
        var f := Flush(sc, SymbolKind);
        Some(f.(col := f.col + 1))
      else Some(sc.(word := sc.word + [b], col := sc.col + 1))
    else
      if b == '{' then Some(sc.(blockLevel := sc.blockLevel + 1, word := sc.word + [b], col := sc.col + 1))
      else if b == '}' then
        if sc.blockLevel >= 0 then
          Some(sc.(blockLevel := sc.blockLevel - 1, word := sc.word + [b], col := sc.col + 1))
        else if sc.word == [] then None
        else
          var f := Flush(sc.(inString := false), StringKind);
          Some(f.(col := f.col + 1))
      else if b == '\n' then Some(sc.(line := sc.line + 1, col := 1, word := sc.word + [b]))
      else Some(sc.(word := sc.word + [b], col := sc.col + 1))
  }

  /** The state after the first `n` characters, or `None` once an `assert` failed. */
  function Prefix(input: string, n: nat): Option<Scanner>
    requires n <= |input|
  {
    if n == 0 then Some(Start)
    else
      match Prefix(input, n - 1)
      case None => None
      case Some(sc) => Feed(sc, n - 1, input[n - 1])
  }

  /** After the loop: a word left open in a string fails the `assert`; the rest is flushed as a symbol. */
  function Finish(sc: Scanner): Tokenized
  {
    if sc.inString && sc.word != [] then AssertionFailed
    else
      var f := Flush(sc, SymbolKind);
      if f.blockLevel != -1 then Unbalanced else Tokens(f.tokens)
  }

  function Tokenization(input: string): Tokenized
  {
    match Prefix(input, |input|)
    case None => AssertionFailed
    case Some(sc) => Finish(sc)
  }

  /** `flush_word` on the mutable word. */
  method FlushWord(w: Word, tokens: seq<Token>, kind: Kind, line: int, col: int) returns (tokens': seq<Token>)
    requires w.start == -1 && w.end == -1
    modifies w`word, w`line, w`col
    ensures var sc := Scanner(line, col, false, -1, old(w.word), old(w.line), old(w.col), tokens);
      var f := Flush(sc, kind);
      tokens' == f.tokens && w.word == f.word && w.line == f.wordLine && w.col == f.wordCol
  {
    tokens' := tokens;
    if w.IsValid() {
      tokens' := tokens + [Token(kind, w.word, Location(w.start, w.end, w.line, w.col))];
      w.line := line;
      w.col := col;
      w.Reset();
    }
  }

  /** `tokenize`. */
  method Tokenize(input: string) returns (r: Tokenized)
    ensures r == Tokenization(input)
  {
    var line, col := 1, 1;
    var inString := false;
    var tokens: seq<Token> := [];
    var w := new Word(-1, -1, line, col);
    var blockLevel := -1;
    for i := 0 to |input|
      invariant w.start == -1 && w.end == -1
      invariant Prefix(input, i) == Some(Scanner(line, col, inString, blockLevel, w.word, w.line, w.col, tokens))
    {
      var b := input[i];
      ghost var sc := Scanner(line, col, inString, blockLevel, w.word, w.line, w.col, tokens);
      if !inString {
        if b == '^' {
          tokens := FlushWord(w, tokens, SymbolKind, line, col);
          tokens := tokens + [Token(TreeKind, "^", Location(i, i + 1, line, col))];
        } else if IsDelimiter(b) {
          tokens := FlushWord(w, tokens, SymbolKind, line, col);
          tokens := tokens + [Token(DelimKind, [b], Location(i, i + 1, line, col))];
        } else if b == '{' {
          inString := true;
          col := col + 1;
          continue;
        } else if b == '}' {
          PrefixStaysFailed(input, i + 1, |input|);
          return AssertionFailed;
        } else if b == '\n' {
          line := line + 1;
          col := 0;
          tokens := FlushWord(w, tokens, SymbolKind, line, col);
        } else if IsSpace(b) {
          tokens := FlushWord(w, tokens, SymbolKind, line, col);
        } else {
          w.Add(b);
        }
      } else {
        if b == '{' {
          blockLevel := blockLevel + 1;
          w.Add(b);
        } else if b == '}' {
          if blockLevel >= 0 {
            blockLevel := blockLevel - 1;
            w.Add(b);
          } else {
            inString := false;
            if !w.IsValid() {
              PrefixStaysFailed(input, i + 1, |input|);
              return AssertionFailed;
            }
            tokens := FlushWord(w, tokens, StringKind, line, col);
          }
        } else if b == '\n' {
          line := line + 1;
          col := 0;
          w.Add(b);
        } else {
          w.Add(b);
        }
      }
      col := col + 1;
    }
    if inString && w.IsValid() {
      return AssertionFailed;
    }
    tokens := FlushWord(w, tokens, SymbolKind, line, col);
    if blockLevel != -1 {
      return Unbalanced;
    }
    return Tokens(tokens);
  }

  // ---------------------------------------------------------------------
  // Properties of the tokenization

  /** What holds between any two characters: the string mode and the brace depth agree. */
  ghost predicate Consistent(sc: Scanner)
  {
    sc.blockLevel >= -1 && sc.line >= 1 && sc.wordLine >= 1 &&
    (!sc.inString ==> sc.blockLevel == -1 && forall k :: 0 <= k < |sc.word| ==> !IsSpecial(sc.word[k])) &&
    (sc.inString && sc.blockLevel >= 0 ==> sc.word != [])
  }

  /**
   * Every token is non-empty and located; a symbol holds no special
   * character; a tree or delimiter token spans one character.
   */
  ghost predicate WellFormed(t: Token)
  {
    t.s != [] && t.loc != NoLocation &&
    (t.kind == SymbolKind ==> forall k :: 0 <= k < |t.s| ==> !IsSpecial(t.s[k])) &&
    (t.kind == TreeKind ==> t.s == "^" && t.loc.end == t.loc.start + 1) &&
    (t.kind == DelimKind ==> |t.s| == 1 && IsDelimiter(t.s[0]) && t.loc.end == t.loc.start + 1)
  }

  ghost predicate AllWellFormed(tokens: seq<Token>)
  {
    forall k :: 0 <= k < |tokens| ==> WellFormed(tokens[k])
  }

  ghost predicate Good(sc: Scanner)
  {
    Consistent(sc) && AllWellFormed(sc.tokens)
  }

  /** Flushing a word outside a string, or a non-empty word as a string, keeps the tokens well formed. */
  lemma FlushGood(sc: Scanner, kind: Kind)
    requires AllWellFormed(sc.tokens) && sc.wordLine >= 1
    requires kind == SymbolKind ==> forall k :: 0 <= k < |sc.word| ==> !IsSpecial(sc.word[k])
    requires kind == SymbolKind || kind == StringKind
    ensures AllWellFormed(Flush(sc, kind).tokens)
  {
    var f := Flush(sc, kind);
    if sc.word != [] {
      assert f.tokens[|sc.tokens|] == Token(kind, sc.word, Location(-1, -1, sc.wordLine, sc.wordCol));
    }
  }

  /** One character keeps a good state good. */
  lemma FeedGood(sc: Scanner, i: nat, b: char)
    requires Good(sc)
    ensures Feed(sc, i, b).Some? ==> Good(Feed(sc, i, b).value)
  {
    if !sc.inString {
      if b == '^' || IsDelimiter(b) || b == '\n' || IsSpace(b) {
        FlushGood(sc, SymbolKind);
        FlushGood(sc.(line := sc.line + 1, col := 0), SymbolKind);
        if b == '^' || IsDelimiter(b) {
          var f := Flush(sc, SymbolKind);
          var t := Token(if b == '^' then TreeKind else DelimKind, if b == '^' then "^" else [b], Location(i, i + 1, f.line, f.col));
          assert WellFormed(t);
          assert f.tokens + [t] == Feed(sc, i, b).value.tokens;
        }
      } else if b != '{' && b != '}' {
        assert !IsSpecial(b);
        var w := sc.word + [b];
        assert forall k :: 0 <= k < |w| ==> !IsSpecial(w[k]);
      }
    } else if b == '}' && sc.blockLevel < 0 && sc.word != [] {
      FlushGood(sc.(inString := false), StringKind);
    }
  }

  /** Every state the loop reaches is good. */
  lemma {:induction false} PrefixGood(input: string, n: nat)
    requires n <= |input|
    ensures Prefix(input, n).Some? ==> Good(Prefix(input, n).value)
  {
    if n > 0 {
      PrefixGood(input, n - 1);
      if Prefix(input, n - 1).Some? {
        FeedGood(Prefix(input, n - 1).value, n - 1, input[n - 1]);
      }
    }
  }

  /**
   * The RuntimeError for an unbalanced string is never raised: an open
   * nested brace leaves a non-empty word, which fails the `assert` first.
   */
  lemma NeverUnbalanced(input: string)
    ensures Tokenization(input) != Unbalanced
  {
    PrefixGood(input, |input|);
  }

  /** A successful tokenization yields well-formed tokens only. */
  lemma TokensWellFormed(input: string)
    ensures Tokenization(input).Tokens? ==> AllWellFormed(Tokenization(input).tokens)
  {
    PrefixGood(input, |input|);
    if Prefix(input, |input|).Some? {
      var sc := Prefix(input, |input|).value;
      if !(sc.inString && sc.word != []) && !sc.inString {
        FlushGood(sc, SymbolKind);
      }
    }
  }

  /** A `}` outside a string fails the `assert`. */
  lemma CloseOutsideString(input: string, n: nat)
    requires n < |input| && input[n] == '}' && Prefix(input, n).Some? && !Prefix(input, n).value.inString
    ensures Tokenization(input) == AssertionFailed
  {
    PrefixStaysFailed(input, n + 1, |input|);
  }

  /** Once an `assert` failed, it stays failed. */
  lemma {:induction false} PrefixStaysFailed(input: string, n: nat, m: nat)
    requires n <= m <= |input| && Prefix(input, n).None?
    ensures Prefix(input, m).None?
    decreases m - n
  {
    if n < m {
      PrefixStaysFailed(input, n + 1, m);
    }
  }

  /** `tokenize('^')`: one tree token at index 0, line 1, column 1. */
  lemma LoneTree()
    ensures Tokenization("^") == Tokens([Token(TreeKind, "^", Location(0, 1, 1, 1))])
  {
    assert Prefix("^", 1) == Feed(Start, 0, '^');
  }

  /**
   * `tokenize('a b')`: the symbols `a` and `b`. A flushed word keeps the
   * position the previous flush left, so `b` carries column 2, the column
   * of the space, and neither carries the default location.
   */
  lemma TwoSymbols()
    ensures Tokenization("a b") ==
      Tokens([Token(SymbolKind, "a", Location(-1, -1, 1, 1)), Token(SymbolKind, "b", Location(-1, -1, 1, 2))])
  {
    var s1 := Scanner(1, 2, false, -1, "a", 1, 1, []);
    var a := Token(SymbolKind, "a", Location(-1, -1, 1, 1));
    var s2 := Scanner(1, 3, false, -1, [], 1, 2, [a]);
    var s3 := Scanner(1, 4, false, -1, "b", 1, 2, [a]);
    assert !IsSpecial('a') && !IsSpecial('b') && IsSpace(' ');
    assert Start.(word := Start.word + ['a'], col := Start.col + 1) == s1;
    assert Flush(s1, SymbolKind).(col := 3) == s2;
    assert s2.(word := s2.word + ['b'], col := s2.col + 1) == s3;
    assert "a b"[0] == 'a' && "a b"[1] == ' ' && "a b"[2] == 'b';
    assert Prefix("a b", 1) == Feed(Start, 0, 'a') == Some(s1);
    assert Prefix("a b", 2) == Feed(s1, 1, ' ') == Some(s2);
    assert Prefix("a b", 3) == Feed(s2, 2, 'b') == Some(s3);
  }

  /** `tokenize('{}')`: a string closed while still empty fails the `assert` instead of giving an empty string token. */
  lemma EmptyString()
    ensures Tokenization("{}") == AssertionFailed
  {
    assert "{}"[0] == '{' && "{}"[1] == '}';
    assert Prefix("{}", 1) == Some(Start.(inString := true, col := 2));
    assert Prefix("{}", 2) == None;
  }

  /**
   * The three unbalanced strings fail an `assert` rather than raising the
   * RuntimeError: `{{}` ends inside a string with a word, `{}}` closes an
   * empty string, and `{ }}` closes a brace outside a string.
   */
  lemma UnbalancedStrings()
    ensures Tokenization("{{}") == AssertionFailed
    ensures Tokenization("{}}") == AssertionFailed
    ensures Tokenization("{ }}") == AssertionFailed
  {
    var open := Start.(inString := true, col := 2);
    var a := "{{}";
    var a2 := open.(blockLevel := 0, word := ['{'], col := 3);
    var a3 := a2.(blockLevel := -1, word := ['{', '}'], col := 4);
    assert a[0] == '{' && a[1] == '{' && a[2] == '}';
    assert Prefix(a, 1) == Feed(Start, 0, '{') == Some(open);
    assert open.(blockLevel := open.blockLevel + 1, word := open.word + ['{'], col := open.col + 1) == a2;
    assert Prefix(a, 2) == Feed(open, 1, '{') == Some(a2);
    assert a2.(blockLevel := a2.blockLevel - 1, word := a2.word + ['}'], col := a2.col + 1) == a3;
    assert Prefix(a, 3) == Feed(a2, 2, '}') == Some(a3);
    var b := "{}}";
    assert b[0] == '{' && b[1] == '}';
    assert Prefix(b, 1) == Feed(Start, 0, '{') == Some(open);
    assert Prefix(b, 2) == Feed(open, 1, '}') == None;
    PrefixStaysFailed(b, 2, 3);
    var c := "{ }}";
    var c2 := open.(word := [' '], col := 3);
    assert c[0] == '{' && c[1] == ' ' && c[2] == '}' && c[3] == '}';
    assert Prefix(c, 1) == Feed(Start, 0, '{') == Some(open);
    assert open.(word := open.word + [' '], col := open.col + 1) == c2;
    assert Prefix(c, 2) == Feed(open, 1, ' ') == Some(c2);
    assert Prefix(c, 3) == Feed(c2, 2, '}');
    assert !Prefix(c, 3).value.inString;
    CloseOutsideString(c, 3);
  }
}
