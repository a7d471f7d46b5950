/**
 * The recursive-descent parser of the front end. A `Parser` walks a token
 * list with a cursor, an end-of-input flag and an error flag; tokens are
 * matched by whole-token equality, location included, against tokens
 * built with the default location.
 *
 *   source     ::= expression
 *   expression ::= tree | list | (nothing)
 *   list       ::= '[' { expression [','] } ']'
 */
module Parser {
  import opened Wrappers
  import opened Tokenizer

  datatype NodeKind = SourceNode | ExpressionNode | ListNode | TreeLeaf

  datatype Node = Node(kind: NodeKind, token: Option<Token>, children: seq<Node>)

  const EmptyExpression: Node := Node(ExpressionNode, None, [])

  /** An expression holding the tree `Tree()`. */
  const TreeExpression: Node := Node(ExpressionNode, None, [Node(TreeLeaf, Some(TreeToken), [])])

  /** The tree `Source(None, [Expression(None, [TreeNode(Tree(), [])])])`. */
  const SimplestSource: Node := Node(SourceNode, None, [TreeExpression])

  /** The tokens `parse_expression` consumes. */
  predicate StartsExpression(t: Token)
  {
    t == TreeToken || t == DelimToken("[")
  }

  /** A token inside a list that neither closes it, nor separates, nor starts an expression. */
  predicate Stuck(t: Token)
  {
    !StartsExpression(t) && t != DelimToken("]") && t != DelimToken(",")
  }

  /** `match_token`'s comparison: the whole token, or its class only. */
  predicate Matches(t: Token, token: Token, matchContents: bool)
  {
    if matchContents then t == token else t.kind == token.kind
  }

  /**
   * How `parse` ends: a tree or `None`; an index out of range when a
   * parser that is not at the end is reused on a shorter list; or no end
   * at all, when a list meets a stuck token and loops forever.
   */
  datatype Outcome = Parsed(node: Option<Node>) | IndexError | Hangs

  // ---------------------------------------------------------------------
  // The reference parse: the grammar above read off the token sequence,
  // from a cursor, with `parse_list_expression`'s endless loop cut at the
  // first iteration that leaves the cursor and the end flag as they were.

  /** The parser's position: the cursor, the end flag and the error flag. */
  datatype Cursor = Cursor(cur: nat, eof: bool, err: bool)

  /** While not at the end, the cursor is on a token. */
  predicate OnToken(ts: seq<Token>, c: Cursor)
  {
    !c.eof ==> c.cur < |ts|
  }

  /** The tokens still to be consumed; none once at the end. */
  function Rest(ts: seq<Token>, c: Cursor): nat
    requires OnToken(ts, c)
  {
    if c.eof then 0 else |ts| - c.cur
  }

  /** Whether the cursor is on the token `t`. */
  predicate At(ts: seq<Token>, c: Cursor, t: Token)
    requires OnToken(ts, c)
  {
    !c.eof && ts[c.cur] == t
  }

  /** One token further, at the end past the last one. */
  function Advance(ts: seq<Token>, c: Cursor): Cursor
  {
    Cursor(c.cur + 1, c.eof || c.cur + 1 >= |ts|, c.err)
  }

  /** `expect(t)`: nothing at the end; `t` is consumed; any other token ends the parse in error. */
  function Expected(ts: seq<Token>, c: Cursor, t: Token): (r: Cursor)
    requires OnToken(ts, c)
    ensures OnToken(ts, r) && (c.eof ==> r == c) && (!c.eof ==> Rest(ts, r) < Rest(ts, c))
  {
    if c.eof then c
    else if ts[c.cur] == t then Advance(ts, c)
    else Cursor(c.cur, true, true)
  }

  /** A parsed node, the position after it, and whether the parse would loop forever there. */
  datatype Parsing = Parsing(node: Node, at: Cursor, hung: bool)

  /** `parse_expression` from `c`: a tree, a list, or nothing. */
  function ExpressionFrom(ts: seq<Token>, c: Cursor): (p: Parsing)
    requires OnToken(ts, c)
    decreases Rest(ts, c), 1
    ensures OnToken(ts, p.at) && Rest(ts, p.at) <= Rest(ts, c) && (c.eof ==> p.at.eof)
    ensures p.hung ==> !p.at.eof && Stuck(ts[p.at.cur])
    ensures p.node.kind == ExpressionNode && p.node.token == None && |p.node.children| <= 1
  {
    if At(ts, c, TreeToken) then Parsing(TreeExpression, Advance(ts, c), false)
    else if At(ts, c, DelimToken("[")) then
      var l := ListFrom(ts, c);
      Parsing(Node(ExpressionNode, None, [l.node]), l.at, l.hung)
    else Parsing(EmptyExpression, c, false)
  }

  /** `parse_list_expression` from `c`: `[`, then the elements. */
  function ListFrom(ts: seq<Token>, c: Cursor): (p: Parsing)
    requires OnToken(ts, c)
    decreases Rest(ts, c), 0
    ensures OnToken(ts, p.at) && Rest(ts, p.at) <= Rest(ts, c) && (c.eof ==> p.at.eof)
    ensures !c.eof ==> Rest(ts, p.at) < Rest(ts, c)
    ensures p.hung ==> !p.at.eof && Stuck(ts[p.at.cur])
    ensures p.node.kind == ListNode && p.node.token == None
    ensures forall k :: 0 <= k < |p.node.children| ==> p.node.children[k].kind == ExpressionNode
    ensures !p.hung && !p.at.eof ==> 0 < p.at.cur && ts[p.at.cur - 1] == DelimToken("]")
  {
    if c.eof then Parsing(Node(ListNode, None, []), c, false)
    else ListItems(ts, Expected(ts, c, DelimToken("[")), [])
  }

  /**
   * The loop of `parse_list_expression` with the elements `items` read so
   * far: stop on `]` or at the end, else read an expression and an
   * optional `,`; an iteration that moves nothing would repeat forever.
   */
  function ListItems(ts: seq<Token>, c: Cursor, items: seq<Node>): (p: Parsing)
    requires OnToken(ts, c)
    decreases Rest(ts, c), 2
    ensures OnToken(ts, p.at) && Rest(ts, p.at) <= Rest(ts, c) && (c.eof ==> p.at.eof)
    ensures p.hung ==> !p.at.eof && Stuck(ts[p.at.cur])
    ensures p.node.kind == ListNode && p.node.token == None
    ensures (forall k :: 0 <= k < |items| ==> items[k].kind == ExpressionNode) ==>
      forall k :: 0 <= k < |p.node.children| ==> p.node.children[k].kind == ExpressionNode
    ensures !p.hung && !p.at.eof ==> 0 < p.at.cur && ts[p.at.cur - 1] == DelimToken("]")
  {
    if c.eof || At(ts, c, DelimToken("]")) then
      Parsing(Node(ListNode, None, items), Expected(ts, c, DelimToken("]")), false)
    else
      var e := ExpressionFrom(ts, c);
      if e.hung then Parsing(Node(ListNode, None, items), e.at, true)
      else
        var next := if At(ts, e.at, DelimToken(",")) then Expected(ts, e.at, DelimToken(",")) else e.at;
        if next.cur == c.cur && next.eof == c.eof then Parsing(Node(ListNode, None, items + [e.node]), next, true)
        else ListItems(ts, next, items + [e.node])
  }

  /** One turn of the list loop that reads an expression and moves on. */
  lemma ListTurn(ts: seq<Token>, c: Cursor, items: seq<Node>, e: Parsing, next: Cursor)
    requires OnToken(ts, c) && !c.eof && !At(ts, c, DelimToken("]"))
    requires e == ExpressionFrom(ts, c) && !e.hung
    requires next == if At(ts, e.at, DelimToken(",")) then Expected(ts, e.at, DelimToken(",")) else e.at
    ensures OnToken(ts, next)
    ensures ListItems(ts, c, items) ==
      if next.cur == c.cur && next.eof == c.eof then Parsing(Node(ListNode, None, items + [e.node]), next, true)
      else ListItems(ts, next, items + [e.node])
  {
  }

  /** `parse` from the position `c` a parser is left in. */
  function ParseOf(ts: seq<Token>, c: Cursor): Outcome
  {
    if ts == [] then Parsed(None)
    else if !c.eof && c.cur >= |ts| then IndexError
    else
      var p := ExpressionFrom(ts, c);
      if p.hung then Hangs
      else if !p.at.eof then Parsed(None)
      else Parsed(Some(Node(SourceNode, None, [p.node])))
  }

  /** The converse of the hang clauses: a stuck token inside a list hangs right there. */
  lemma StuckHangs(ts: seq<Token>, c: Cursor, items: seq<Node>)
    requires OnToken(ts, c) && !c.eof && Stuck(ts[c.cur])
    ensures ListItems(ts, c, items) == Parsing(Node(ListNode, None, items + [EmptyExpression]), c, true)
  {
  }

  /** One list element: a tree, a comma, or a tree and its comma. */
  datatype Element = Element(tree: bool, comma: bool)

  function ElementTokens(e: Element): seq<Token>
  {
    (if e.tree then [TreeToken] else []) + (if e.comma then [DelimToken(",")] else [])
  }

  function ElementsTokens(es: seq<Element>): seq<Token>
  {
    if es == [] then [] else ElementTokens(es[0]) + ElementsTokens(es[1..])
  }

  /** The expression an element stands for: a tree, or an empty expression for a bare comma. */
  function ElementExpression(e: Element): Node
  {
    if e.tree then TreeExpression else EmptyExpression
  }

  function ElementsExpressions(es: seq<Element>): (r: seq<Node>)
    ensures |r| == |es|
  {
    if es == [] then [] else [ElementExpression(es[0])] + ElementsExpressions(es[1..])
  }

  /**
   * Every element has a token, and a tree without its comma is followed
   * by another tree or by the end, so the tokens split one way only.
   */
  predicate Separable(es: seq<Element>)
  {
    es == [] ||
    ((es[0].tree || es[0].comma) && (|es| > 1 && !es[0].comma ==> es[1].tree) && Separable(es[1..]))
  }

  /**
   * One turn of the list loop reads one element: its expression is
   * appended and the cursor moves past its tokens, provided a lone tree is
   * not followed by a comma that would be taken as its own.
   */
  lemma ElementStep(ts: seq<Token>, pre: seq<Token>, e: Element, after: seq<Token>, items: seq<Node>, err: bool)
    requires ts == pre + ElementTokens(e) + after
    requires (e.tree || e.comma) && after != []
    requires e.tree && !e.comma ==> after[0] != DelimToken(",")
    ensures ListItems(ts, Cursor(|pre|, false, err), items) ==
      ListItems(ts, Cursor(|pre + ElementTokens(e)|, false, err), items + [ElementExpression(e)])
  {
    var c := Cursor(|pre|, false, err);
    assert ts[|pre|] == ElementTokens(e)[0];
    assert ts[|pre| + |ElementTokens(e)|] == after[0];
    if e.tree {
      var t := Cursor(|pre| + 1, false, err);
      assert ExpressionFrom(ts, c) == Parsing(TreeExpression, t, false);
      if e.comma {
        assert ts[|pre| + 1] == DelimToken(",");
        ListTurn(ts, c, items, ExpressionFrom(ts, c), Cursor(|pre| + 2, false, err));
      } else {
        ListTurn(ts, c, items, ExpressionFrom(ts, c), t);
      }
    } else {
      assert ExpressionFrom(ts, c) == Parsing(EmptyExpression, c, false);
      ListTurn(ts, c, items, ExpressionFrom(ts, c), Cursor(|pre| + 1, false, err));
    }
  }

  lemma AppendGrouping<T>(a: seq<T>, b: seq<T>, c: seq<T>)
    ensures a + b + c == a + (b + c)
  {
  }

  /** A closing `]` ends the list and is consumed. */
  lemma ListClose(ts: seq<Token>, c: Cursor, items: seq<Node>)
    requires !c.eof && c.cur < |ts| && ts[c.cur] == DelimToken("]")
    ensures ListItems(ts, c, items) == Parsing(Node(ListNode, None, items), Cursor(c.cur + 1, c.cur + 1 >= |ts|, c.err), false)
  {
  }

  /**
   * The elements of a list are read one per element, in order, up to and
   * including the closing `]`, with an empty expression for a bare comma;
   * the parse ends right after the `]`, at the end exactly when nothing
   * follows it.
   */
  lemma {:induction false} ListOfElements(ts: seq<Token>, pre: seq<Token>, es: seq<Element>, post: seq<Token>, items: seq<Node>, err: bool)
    requires ts == pre + ElementsTokens(es) + [DelimToken("]")] + post && Separable(es)
    ensures ListItems(ts, Cursor(|pre|, false, err), items) ==
      Parsing(Node(ListNode, None, items + ElementsExpressions(es)), Cursor(|ts| - |post|, post == [], err), false)
    decreases |es|
  {
    if es == [] {
      assert ts[|pre|] == DelimToken("]");
      ListClose(ts, Cursor(|pre|, false, err), items);
      assert items + ElementsExpressions(es) == items;
    } else {
      var e0, rest := es[0], es[1..];
      var after := ElementsTokens(rest) + [DelimToken("]")] + post;
      var pre' := pre + ElementTokens(e0);
      var items' := items + [ElementExpression(e0)];
      assert ts == pre + ElementTokens(e0) + after;
      assert ts == pre' + ElementsTokens(rest) + [DelimToken("]")] + post;
      assert e0.tree && !e0.comma ==> after[0] != DelimToken(",") by {
        if rest != [] {
          assert after[0] == ElementsTokens(rest)[0] == ElementTokens(rest[0])[0];
        }
      }
      ElementStep(ts, pre, e0, after, items, err);
      ListOfElements(ts, pre', rest, post, items', err);
      AppendGrouping(items, [ElementExpression(e0)], ElementsExpressions(rest));
    }
  }

  /** A whole list of elements parses, from a fresh position, to the source holding that list. */
  lemma ParseList(es: seq<Element>)
    requires Separable(es)
    ensures ParseOf([DelimToken("[")] + ElementsTokens(es) + [DelimToken("]")], Cursor(0, false, false)) ==
      Parsed(Some(Node(SourceNode, None, [Node(ExpressionNode, None, [Node(ListNode, None, ElementsExpressions(es))])])))
  {
    var ts := [DelimToken("[")] + ElementsTokens(es) + [DelimToken("]")];
    assert ts == [DelimToken("[")] + ElementsTokens(es) + [DelimToken("]")] + [];
    var c := Cursor(0, false, false);
    assert ts[0] == DelimToken("[");
    assert ExpressionFrom(ts, c) == Parsing(Node(ExpressionNode, None, [ListFrom(ts, c).node]), ListFrom(ts, c).at, ListFrom(ts, c).hung);
    assert ListFrom(ts, c) == ListItems(ts, Cursor(1, false, false), []);
    ListOfElements(ts, [DelimToken("[")], es, [], [], false);
    assert [] + ElementsExpressions(es) == ElementsExpressions(es);
  }

  class Parser {
    var tokens: seq<Token>
    var curToken: nat
    var atEof: bool
    var wasError: bool

    /** A parser starts at token 0 with both flags clear. */
    constructor ()
      ensures tokens == [] && curToken == 0 && !atEof && !wasError
    {
      tokens := [];
      curToken := 0;
      atEof := false;
      wasError := false;
    }

    /** The cursor and the two flags. */
    ghost function Position(): Cursor
      reads this
    {
      Cursor(curToken, atEof, wasError)
    }

    ghost predicate Valid()
      reads this
    {
      OnToken(tokens, Position())
    }

    ghost function Remaining(): nat
      reads this
      requires Valid()
    {
      Rest(tokens, Position())
    }

    /** `next`: advance the cursor, raising the end flag past the last token. */
    method Next()
      modifies this`curToken, this`atEof
      ensures curToken == old(curToken) + 1 && atEof == (old(atEof) || curToken >= |tokens|)
    {
      curToken := curToken + 1;
      if curToken >= |tokens| {
        atEof := true;
      }
    }

    /** `match_token`: whether the current token matches; never at the end. */
    method MatchToken(token: Token, matchContents: bool) returns (r: bool)
      requires Valid()
      ensures r <==> !atEof && Matches(tokens[curToken], token, matchContents)
    {
      if atEof {
        return false;
      }
      var t := tokens[curToken];
      if matchContents {
        return t == token;
      }
      return t.kind == token.kind;
    }

    /**
     * `expect`: at the end, nothing happens; a matching token is consumed;
     * any other token ends the parse with the error flag set.
     */
    method Expect(token: Token, matchContents: bool) returns (r: bool)
      requires Valid()
      modifies this`curToken, this`atEof, this`wasError
      ensures Valid()
      ensures matchContents ==> Position() == Expected(tokens, old(Position()), token)
      ensures old(atEof) ==> !r && unchanged(this)
      ensures !old(atEof) && Matches(old(tokens[curToken]), token, matchContents) ==>
        r && curToken == old(curToken) + 1 && atEof == (curToken >= |tokens|) && wasError == old(wasError)
      ensures !old(atEof) && !Matches(old(tokens[curToken]), token, matchContents) ==>
        !r && curToken == old(curToken) && atEof && wasError
    {
      if atEof {
        return false;
      }
      var ok := MatchToken(token, matchContents);
      if !ok {
        atEof := true;
        wasError := true;
        return false;
      }
      Next();
      return true;
    }

    /** The optional `,` after a list element: consumed when present. */
    method SkipComma()
      requires Valid()
      modifies this`curToken, this`atEof, this`wasError
      ensures Valid() && wasError == old(wasError)
      ensures Position() == if At(tokens, old(Position()), DelimToken(",")) then Expected(tokens, old(Position()), DelimToken(",")) else old(Position())
    {
      var comma := MatchToken(DelimToken(","), true);
      if comma {
        var _ := Expect(DelimToken(","), true);
      }
    }

    /** `parse_tree`: a leaf holding the current token, which is then expected to be `Tree()`. */
    method ParseTree() returns (n: Node)
      requires Valid() && curToken < |tokens|
      modifies this`curToken, this`atEof, this`wasError
      ensures Valid()
      ensures n == Node(TreeLeaf, Some(old(tokens[curToken])), [])
      ensures !old(atEof) && old(tokens[curToken]) == TreeToken ==>
        curToken == old(curToken) + 1 && atEof == (curToken >= |tokens|) && wasError == old(wasError)
    {
      var token := tokens[curToken];
      var _ := Expect(TreeToken, true);
      n := Node(TreeLeaf, Some(token), []);
    }

    /**
     * `parse_expression`: a tree, a list, or nothing; a token that starts
     * neither is left where it is.
     */
    method ParseExpression() returns (n: Node, hung: bool)
      requires Valid()
      modifies this`curToken, this`atEof, this`wasError
      decreases Remaining(), 1
      ensures Valid() && Remaining() <= old(Remaining()) && (old(atEof) ==> atEof)
      ensures n.kind == ExpressionNode && n.token == None && |n.children| <= 1
      ensures old(atEof) || !StartsExpression(old(tokens[curToken])) ==>
        n == EmptyExpression && !hung && unchanged(this)
      ensures !old(atEof) && old(tokens[curToken]) == TreeToken ==>
        n == Node(ExpressionNode, None, [Node(TreeLeaf, Some(TreeToken), [])]) && !hung &&
        curToken == old(curToken) + 1 && atEof == (curToken >= |tokens|) && wasError == old(wasError)
      ensures !old(atEof) && old(tokens[curToken]) == DelimToken("[") ==>
        |n.children| == 1 && n.children[0].kind == ListNode && Remaining() < old(Remaining())
      ensures hung ==> !atEof && Stuck(tokens[curToken])
      ensures ExpressionFrom(tokens, old(Position())) == Parsing(n, Position(), hung)
    {
      hung := false;
      var isTree := MatchToken(TreeToken, true);
      if isTree {
        var t := ParseTree();
        return Node(ExpressionNode, None, [t]), false;
      }
      var isList := MatchToken(DelimToken("["), true);
      if isList {
        var l;
        l, hung := ParseListExpression();
        return Node(ExpressionNode, None, [l]), hung;
      }
      return EmptyExpression, false;
    }

    /**
     * `parse_list_expression`: after `[`, expressions, each optionally
     * followed by `,`, until `]` or the end. An iteration that leaves the
     * cursor and the end flag as they were would repeat forever: that
     * happens exactly on a stuck token, and is reported as `hung`.
     */
    method ParseListExpression() returns (n: Node, hung: bool)
      requires Valid()
      modifies this`curToken, this`atEof, this`wasError
      decreases Remaining(), 0
      ensures ListFrom(tokens, old(Position())) == Parsing(n, Position(), hung)
    {
      ghost var goal := ListFrom(tokens, Position());
      var nodes: seq<Node> := [];
      var _ := Expect(DelimToken("["), true);
      while true
        invariant Valid()
        invariant ListItems(tokens, Position(), nodes) == goal
        decreases Remaining()
      {
        var close := MatchToken(DelimToken("]"), true);
        if close {
          break;
        }
        if atEof {
          break;
        }
        ghost var here := Position();
        var before, beforeEof := curToken, atEof;
        var e;
        e, hung := ParseExpression();
        if hung {
          return Node(ListNode, None, nodes), true;
        }
        ghost var afterExpression := Position();
        SkipComma();
        ListTurn(tokens, here, nodes, Parsing(e, afterExpression, false), Position());
        nodes := nodes + [e];
        if curToken == before && atEof == beforeEof {
          return Node(ListNode, None, nodes), true;
        }
      }
      var _ := Expect(DelimToken("]"), true);
      return Node(ListNode, None, nodes), false;
    }

    /** `parse_source`: one expression. */
    method ParseSource() returns (n: Node, hung: bool)
      requires Valid()
      modifies this`curToken, this`atEof, this`wasError
      ensures Valid() && (old(atEof) ==> atEof)
      ensures n.kind == SourceNode && n.token == None && |n.children| == 1 && n.children[0].kind == ExpressionNode
      ensures old(atEof) || !StartsExpression(old(tokens[curToken])) ==>
        n == Node(SourceNode, None, [EmptyExpression]) && !hung && unchanged(this)
      ensures !old(atEof) && old(tokens[curToken]) == TreeToken ==>
        n == SimplestSource && !hung && atEof == (old(curToken) + 1 >= |tokens|)
      ensures hung ==> !atEof && Stuck(tokens[curToken])
      ensures ExpressionFrom(tokens, old(Position())) == Parsing(n.children[0], Position(), hung)
    {
      var e;
      e, hung := ParseExpression();
      n := Node(SourceNode, None, [e]);
    }

    /**
     * `parse`: no tree for an empty list; otherwise the source, accepted
     * only when it reached the end. The cursor and the flags are not
     * reset, so a parser that already reached the end accepts any
     * non-empty list as an empty expression; one that did not reach it
     * fails on a list too short for its cursor (the first `match_token`).
     */
    method Parse(ts: seq<Token>) returns (r: Outcome)
      modifies this
      ensures ts == [] ==> r == Parsed(None) && unchanged(this)
      ensures ts != [] ==> tokens == ts
      ensures r == IndexError <==> ts != [] && !old(atEof) && old(curToken) >= |ts|
      ensures r.Parsed? && r.node.Some? ==>
        atEof && r.node.value.kind == SourceNode && |r.node.value.children| == 1 &&
        r.node.value.children[0].kind == ExpressionNode
      ensures ts != [] && old(atEof) ==> r == Parsed(Some(Node(SourceNode, None, [EmptyExpression])))
      ensures ts != [] && !old(atEof) && old(curToken) == 0 && !StartsExpression(ts[0]) ==> r == Parsed(None)
      ensures !old(atEof) && old(curToken) == 0 && ts == [TreeToken] ==> r == Parsed(Some(SimplestSource))
      ensures !old(atEof) && old(curToken) == 0 && |ts| > 1 && ts[0] == TreeToken ==> r == Parsed(None)
      ensures r == Hangs ==> ts != [] && !old(atEof) && ts[old(curToken)] == DelimToken("[")
      ensures r == Hangs ==> !atEof && curToken < |tokens| && Stuck(tokens[curToken])
      ensures ts != [] && r.Parsed? ==> (r.node.Some? <==> atEof)
      ensures r == ParseOf(ts, old(Position()))
    {
      if ts == [] {
        return Parsed(None);
      }
      tokens := ts;
      if !atEof && curToken >= |tokens| {
        return IndexError;
      }
      var result, hung := ParseSource();
      if hung {
        return Hangs;
      }
      if !atEof {
        return Parsed(None);
      }
      assert result == Node(SourceNode, None, [result.children[0]]);
      return Parsed(Some(result));
    }
  }

  /**
   * Every token the tokenizer produces carries a location, so none equals
   * the default-located tokens the parser compares against: a fresh
   * parser returns no tree for any non-empty tokenization.
   */
  lemma TokenizedTokensAreStuck(input: string)
    ensures Tokenization(input).Tokens? ==>
      forall k :: 0 <= k < |Tokenization(input).tokens| ==> Stuck(Tokenization(input).tokens[k])
  {
    TokensWellFormed(input);
  }

  /** `parse([])` on a fresh parser: no tree. */
  method ParseEmpty() returns (r: Outcome)
    ensures r == Parsed(None)
  {
    var p := new Parser();
    r := p.Parse([]);
  }

  /** A fresh parser on the lone default-located `Tree()` token accepts the simplest source. */
  method ParseLoneTree() returns (r: Outcome)
    ensures r == Parsed(Some(SimplestSource))
  {
    var p := new Parser();
    r := p.Parse([TreeToken]);
  }

  /** A fresh parser on the tokenization of `^` returns no tree: the token's location differs from `Tree()`'s. */
  method ParseTokenizedTree() returns (r: Outcome)
    ensures r == Parsed(None)
  {
    LoneTree();
    var p := new Parser();
    r := p.Parse([Token(TreeKind, "^", Location(0, 1, 1, 1))]);
  }

  /** A fresh parser on `[ Tree() , , ]`: a list of a tree and an empty expression. */
  method ParseTreeAndComma() returns (r: Outcome)
    ensures r == Parsed(Some(Node(SourceNode, None, [Node(ExpressionNode, None,
      [Node(ListNode, None, [TreeExpression, EmptyExpression])])])))
  {
    var es := [Element(true, true), Element(false, true)];
    var ts := [DelimToken("["), TreeToken, DelimToken(","), DelimToken(","), DelimToken("]")];
    assert ElementsTokens(es) == [TreeToken, DelimToken(","), DelimToken(",")];
    assert ts == [DelimToken("[")] + ElementsTokens(es) + [DelimToken("]")];
    ParseList(es);
    assert ElementsExpressions(es) == [TreeExpression, EmptyExpression];
    var p := new Parser();
    r := p.Parse(ts);
  }

  /** A fresh parser on `[` and a symbol never ends: the symbol is stuck inside the list. */
  method ParseStuckList() returns (r: Outcome)
    ensures r == Hangs
  {
    var ts := [DelimToken("["), Token(SymbolKind, "a", NoLocation)];
    assert ListFrom(ts, Cursor(0, false, false)) == ListItems(ts, Cursor(1, false, false), []);
    StuckHangs(ts, Cursor(1, false, false), []);
    var p := new Parser();
    r := p.Parse(ts);
  }
}
