/** The proof that a printed statement is read back as its words (see `WildcardWords`). */
module WildcardReads {
  import opened WildcardSql
  import opened WildcardWords
  import T = Tokenizer

  /** The text printed so far is read as `ws`, before anything that `f` allows. */
  ghost predicate Grown(lex: Scanner, o: Out, ws: seq<Word>, f: Follow) {
    o.gen && Reads(lex, o.sql, ws, f)
  }

  lemma Grow(lex: Scanner, o: Out, ws: seq<Word>, f: Follow, s: string, w: seq<Word>, g: Follow)
    requires Grown(lex, o, ws, f) && s != "" && Allows(f, s[0]) && Reads(lex, s, w, g)
    ensures Grown(lex, Add(o, s), ws + w, g)
  {
    Join(lex, o.sql, ws, f, s, w, g);
  }

  lemma Stay(lex: Scanner, o: Out, ws: seq<Word>, f: Follow)
    requires Grown(lex, o, ws, f)
    ensures Grown(lex, o, ws + [], f) && Add(o, "") == o
  {
    assert ws + [] == ws;
    assert o.sql + "" == o.sql;
  }

  lemma Loosen(lex: Scanner, o: Out, ws: seq<Word>, f: Follow, g: Follow)
    requires Grown(lex, o, ws, f) && Covers(f, g)
    ensures Grown(lex, o, ws, g)
  {
    Relax(lex, o.sql, ws, f, g);
  }

  lemma Regroup(lex: Scanner, o: Out, ws: seq<Word>, a: seq<Word>, b: seq<Word>, f: Follow)
    requires Grown(lex, o, ws + a + b, f)
    ensures Grown(lex, o, ws + (a + b), f)
  {
    assert ws + a + b == ws + (a + b);
  }

  /** One more piece after the words `a`. */
  lemma GrowBy(lex: Scanner, o: Out, ws: seq<Word>, a: seq<Word>, f: Follow, s: string, w: seq<Word>, g: Follow)
    requires Grown(lex, o, ws + a, f) && s != "" && Allows(f, s[0]) && Reads(lex, s, w, g)
    ensures Grown(lex, Add(o, s), ws + (a + w), g)
  {
    Grow(lex, o, ws + a, f, s, w, g);
    Regroup(lex, Add(o, s), ws, a, w, g);
  }

  // ----- fixed pieces

  lemma SignText(op: Op, parent: Op)
    requires IsSign(op)
    ensures Symbol(op, parent) == " " + SignOf(op).1 + " "
  {}

  lemma SignPieceReads(lex: Scanner, op: Op, parent: Op)
    requires Standard(lex) && IsSign(op)
    ensures Reads(lex, Symbol(op, parent), OperatorWords(op, parent, lex), Any)
  {
    SignText(op, parent);
    assert Knows(lex, Blank) && Knows(lex, SignFact(op));
    SpacedSign(lex, SignOf(op).1, SignOf(op).0, Stops);
  }

  function WordOf(op: Op): string {
    match op
    case And => "and"
    case Or => "or"
    case Between => "between"
    case In => "in"
    case _ => "exists"
  }

  predicate IsWord(op: Op) {
    op.And? || op.Or? || op.Between? || op.In? || op.Exists?
  }

  predicate IsTest(op: Op) {
    op.In? || op.Exists?
  }

  lemma WordText(op: Op, parent: Op)
    requires op.And? || op.Or? || op.Between?
    ensures Symbol(op, parent) == " " + WordOf(op) + " "
  {
    match op
    case And => assert " " + "and" + " " == " and ";
    case Or => assert " " + "or" + " " == " or ";
    case Between => assert " " + "between" + " " == " between ";
  }

  lemma TestText(op: Op, parent: Op)
    requires IsTest(op)
    ensures var w := " " + WordOf(op) + "("; Symbol(op, parent) == if parent.Not? then " not" + w else w
  {
    match op
    case In => assert " not" + (" " + "in" + "(") == " not in(" && " " + "in" + "(" == " in(";
    case Exists => assert " not" + (" " + "exists" + "(") == " not exists(" && " " + "exists" + "(" == " exists(";
  }

  lemma WordOfLetters(op: Op)
    ensures Letters(WordOf(op))
  {}

  lemma WordPieceReads(lex: Scanner, op: Op, parent: Op)
    requires Standard(lex) && IsWord(op)
    ensures Reads(lex, Symbol(op, parent), OperatorWords(op, parent, lex), Any)
  {
    var w := WordOf(op);
    WordOfLetters(op);
    if !IsTest(op) {
      WordText(op, parent);
      SpacedWord(lex, w);
      return;
    }
    TestText(op, parent);
    if parent.Not? {
      NotReads(lex, w);
    } else {
      WordOpens(lex, w);
      assert [] + (Named(w, lex) + OPEN) == Named(w, lex) + OPEN;
    }
  }

  /** NOT, a word and an opening parenthesis. */
  lemma NotReads(lex: Scanner, w: string)
    requires Standard(lex) && Letters(w)
    ensures Reads(lex, " not" + (" " + w + "("), Named("not", lex) + (Named(w, lex) + OPEN), Any)
  {
    NotPiece(lex);
    WordOpens(lex, w);
    Join(lex, " not", Named("not", lex), Called, " " + w + "(", Named(w, lex) + OPEN, Any);
  }

  lemma NotPiece(lex: Scanner)
    requires Standard(lex)
    ensures Reads(lex, " not", Named("not", lex), Called) && Reads(lex, "not ", Named("not", lex), Any)
  {
    SpacedWord(lex, "not");
    assert " " + "not" == " not" && "not" + " " == "not ";
  }

  /** What a node without text prints is its operator. */
  lemma OperatorReads(lex: Scanner, op: Op, parent: Op)
    requires Standard(lex) && OperatorPrints(op)
    ensures Reads(lex, Symbol(op, parent), OperatorWords(op, parent, lex), Any)
  {
    if IsSign(op) {
      SignPieceReads(lex, op, parent);
    } else if IsWord(op) {
      WordPieceReads(lex, op, parent);
    } else if op.All? {
      assert Knows(lex, StarMark);
      SignReads(lex, "*", T.Star, Any);
    } else {
      assert Knows(lex, DotMark);
      SignReads(lex, ".", T.Dot, Any);
    }
  }

  lemma OperatorStarts(op: Op, parent: Op)
    requires OperatorPrints(op)
    ensures Symbol(op, parent) != ""
    ensures Symbol(op, parent)[0] == if op.All? then '*' else if op.Dot? then '.' else ' '
  {}

  /** Other fixed pieces of words and marks. */
  lemma SpacedPiece(lex: Scanner, w: string, t: string)
    requires Standard(lex) && Letters(w) && t == " " + w + " "
    ensures Reads(lex, t, Named(w, lex), Any)
  {
    SpacedWord(lex, w);
  }

  lemma BeginPiece(lex: Scanner, w: string, t: string)
    requires Standard(lex) && Letters(w) && t == w + " "
    ensures Reads(lex, t, Named(w, lex), Any)
  {
    SpacedWord(lex, w);
  }

  lemma EndPiece(lex: Scanner, w: string, t: string)
    requires Standard(lex) && Letters(w) && t == " " + w
    ensures Reads(lex, t, Named(w, lex), Called)
  {
    SpacedWord(lex, w);
  }

  lemma TwoPiece(lex: Scanner, w: string, v: string, t: string)
    requires Standard(lex) && Letters(w) && Letters(v) && t == w + " " + (v + " ")
    ensures Reads(lex, t, Named(w, lex) + Named(v, lex), Any)
  {
    SpacedWord(lex, w);
    SpacedWord(lex, v);
    Join(lex, w + " ", Named(w, lex), Any, v + " ", Named(v, lex), Any);
  }

  lemma SpacedTwoPiece(lex: Scanner, w: string, v: string, t: string)
    requires Standard(lex) && Letters(w) && Letters(v) && t == " " + (w + " " + (v + " "))
    ensures Reads(lex, t, Named(w, lex) + Named(v, lex), Any)
  {
    TwoPiece(lex, w, v, w + " " + (v + " "));
    assert Knows(lex, Blank);
    SpaceBefore(lex, w + " " + (v + " "), Named(w, lex) + Named(v, lex), Any);
  }

  lemma MarksRead(lex: Scanner)
    requires Standard(lex)
    ensures Reads(lex, "(", OPEN, Any) && Reads(lex, ")", CLOSE, Any) && Reads(lex, ",", COMMA, Any)
  {
    assert Knows(lex, OpenMark) && Knows(lex, CloseMark) && Knows(lex, CommaMark);
    SignReads(lex, "(", T.LP, Any);
    SignReads(lex, ")", T.RP, Any);
    SignReads(lex, ",", T.Comma, Any);
  }

  lemma SpacedMarksRead(lex: Scanner)
    requires Standard(lex)
    ensures Reads(lex, " (", OPEN, Any) && Reads(lex, ") ", CLOSE, Any)
  {
    MarksRead(lex);
    assert Knows(lex, Blank);
    SpaceBefore(lex, "(", OPEN, Any);
    SpaceAfter(lex, ")", CLOSE, Any);
    assert " " + "(" == " (" && ")" + " " == ") ";
  }

  lemma StarReads(lex: Scanner)
    requires Standard(lex)
    ensures Reads(lex, "*)", Sign(T.Star, "*") + CLOSE, Any)
  {
    MarksRead(lex);
    assert Knows(lex, StarMark);
    SignReads(lex, "*", T.Star, Any);
    Join(lex, "*", Sign(T.Star, "*"), Any, ")", CLOSE, Any);
    assert "*" + ")" == "*)";
  }

  // ----- expressions

  /** A text of the statement's own. */
  lemma TextReads(lex: Scanner, o: Out, ws: seq<Word>, w: string, f: Follow)
    requires Grown(lex, o, ws, Any) && Solid(lex, w, f)
    ensures Grown(lex, Add(o, w), ws + Named(w, lex), f)
  {
    SolidReads(lex, w, f);
    Grow(lex, o, ws, Any, w, Named(w, lex), f);
  }

  /** A word between spaces and a text after it. */
  lemma WordAndText(lex: Scanner, w: string, t: string, text: string)
    requires Standard(lex) && Letters(w) && t == " " + w + " " && Solid(lex, text, Stops)
    ensures Reads(lex, t + text, Named(w, lex) + Named(text, lex), Stops)
  {
    SpacedPiece(lex, w, t);
    SolidReads(lex, text, Stops);
    Join(lex, t, Named(w, lex), Any, text, Named(text, lex), Stops);
  }

  lemma FunctionHeadReads(lex: Scanner, w: string)
    requires Standard(lex) && Solid(lex, w, Called)
    ensures Reads(lex, w + "(", Named(w, lex) + OPEN, Any)
  {
    SolidReads(lex, w, Called);
    MarksRead(lex);
    Join(lex, w, Named(w, lex), Called, "(", OPEN, Any);
  }

  /** The follow of the text before a node: its left operand, if it has one. */
  function BeforeNode(e: Expr): Follow
    requires e.Expr?
  {
    if e.left.Expr? then Stops else Any
  }

  lemma SymbolReads(lex: Scanner, o: Out, ws: seq<Word>, e: Expr)
    requires Standard(lex) && e.Expr? && Apart(e, lex) && e.token == "" && Grown(lex, o, ws, BeforeNode(e))
    ensures Grown(lex, TokenOut(o, e.op, e.parent, e.token), ws + NodeWords(e, lex), AfterNode(e))
  {
    if OperatorPrints(e.op) {
      OperatorReads(lex, e.op, e.parent);
      OperatorStarts(e.op, e.parent);
      Grow(lex, o, ws, BeforeNode(e), Symbol(e.op, e.parent), OperatorWords(e.op, e.parent, lex), Any);
    } else {
      Stay(lex, o, ws, BeforeNode(e));
    }
  }

  lemma OwnTextReads(lex: Scanner, o: Out, ws: seq<Word>, e: Expr)
    requires Standard(lex) && e.Expr? && Apart(e, lex) && e.token != "" && !e.op.LikeKw? && Grown(lex, o, ws, Any)
    ensures Grown(lex, TokenOut(o, e.op, e.parent, e.token), ws + NodeWords(e, lex), AfterNode(e))
  {
    if IsLiteral(e.op) {
      assert Knows(lex, QuestionMark);
      SignReads(lex, "?", T.Variable, Called);
      Grow(lex, o, ws, Any, "?", Sign(T.Variable, "?"), Called);
      Loosen(lex, Add(o, "?"), ws + Sign(T.Variable, "?"), Called, Stops);
    } else if e.op.Function? {
      FunctionHeadReads(lex, e.token);
      Grow(lex, o, ws, Any, e.token + "(", Named(e.token, lex) + OPEN, Any);
    } else if e.op.Id? && e.parent.Case? {
      WordAndText(lex, "case", " case ", e.token);
      Grow(lex, o, ws, Any, " case " + e.token, Named("case", lex) + Named(e.token, lex), Stops);
    } else {
      TextReads(lex, o, ws, e.token, Stops);
      assert "" + e.token == e.token;
      assert [] + Named(e.token, lex) == Named(e.token, lex);
    }
  }

  /** The text that a LIKE node keeps for the place between its operands. */
  function LikeText(e: Expr): string
    requires e.Expr?
  {
    if e.parent.Not? then "not " + e.token else e.token
  }

  lemma NodeReads(lex: Scanner, o: Out, ws: seq<Word>, e: Expr)
    requires Standard(lex) && e.Expr? && Apart(e, lex) && Grown(lex, o, ws, BeforeNode(e))
    ensures Grown(lex, TokenOut(o, e.op, e.parent, e.token), ws + NodeWords(e, lex), AfterNode(e))
    ensures e.op.LikeKw? && e.token != "" ==> TokenOut(o, e.op, e.parent, e.token).like == LikeText(e)
  {
    if e.token == "" {
      SymbolReads(lex, o, ws, e);
    } else if e.op.LikeKw? {
      Stay(lex, o, ws, BeforeNode(e));
    } else {
      OwnTextReads(lex, o, ws, e);
    }
  }

  lemma LikeReads(lex: Scanner, e: Expr)
    requires Standard(lex) && e.Expr? && e.op.LikeKw? && Solid(lex, e.token, Stops)
    ensures Reads(lex, " " + LikeText(e) + " ", LikeWords(e, lex), Any)
  {
    SolidReads(lex, e.token, Stops);
    NotPiece(lex);
    assert Knows(lex, Blank);
    if e.parent.Not? {
      Join(lex, "not ", Named("not", lex), Any, e.token, Named(e.token, lex), Stops);
    } else {
      assert [] + Named(e.token, lex) == Named(e.token, lex);
    }
    SpaceBefore(lex, LikeText(e), LikeWords(e, lex), Stops);
    SpaceAfter(lex, " " + LikeText(e), LikeWords(e, lex), Stops);
  }

  lemma OpeningReads(lex: Scanner, o: Out, ws: seq<Word>, e: Expr)
    requires Standard(lex) && e.Expr? && Apart(e, lex) && Grown(lex, o, ws, AfterNode(e))
    ensures Grown(lex, Add(o, Opening(e)), ws + OpenWords(e), AfterNode(e))
  {
    Stay(lex, o, ws, AfterNode(e));
    if IsLogic(e) && IsLogic(e.right) {
      MarksRead(lex);
      Grow(lex, o, ws, Any, "(", OPEN, Any);
    }
  }

  lemma ClosingReads(lex: Scanner, o: Out, ws: seq<Word>, e: Expr, f: Follow)
    requires Standard(lex) && e.Expr? && Grown(lex, o, ws, f)
    requires e.op.Function? && e.list.NoList? && e.left.NoExpr? && e.right.NoExpr? ==> f.Any?
    ensures Grown(lex, Add(o, Closing(e)), ws + CloseWords(e), Stops)
  {
    if Closing(e) == "" {
      Stay(lex, o, ws, f);
      Loosen(lex, o, ws + [], f, Stops);
    } else {
      MarksRead(lex);
      StarReads(lex);
      Grow(lex, o, ws, f, Closing(e), CloseWords(e), Any);
      Loosen(lex, Add(o, Closing(e)), ws + CloseWords(e), Any, Stops);
    }
  }

  lemma Regroup7(lex: Scanner, o: Out, ws: seq<Word>, a: seq<Word>, b: seq<Word>, c: seq<Word>, d: seq<Word>,
                 e: seq<Word>, g: seq<Word>, h: seq<Word>, f: Follow)
    requires Grown(lex, o, ws + a + b + c + d + e + g + h, f)
    ensures Grown(lex, o, ws + (a + b + c + d + e + g + h), f)
  {
    assert ws + a + b + c + d + e + g + h == ws + (a + b + c + d + e + g + h);
  }

  /** An expression is read as its left operand, its operator and its right operand, in
      this order, then its sub-select and its list. */
  lemma {:induction false} ExprReads(lex: Scanner, o: Out, ws: seq<Word>, e: Expr)
    requires Standard(lex) && FairExpr(e, lex) && Grown(lex, o, ws, Any)
    ensures Grown(lex, ExprOut(o, e), ws + ExprWords(e, lex), if e.NoExpr? then Any else Stops)
    decreases e, 1
  {
    if e.NoExpr? {
      Stay(lex, o, ws, Any);
    } else {
      var w1 := ws + ExprWords(e.left, lex);
      var a := ExprOut(o, e.left);
      ExprReads(lex, o, ws, e.left);
      NodeReads(lex, a, w1, e);
      var w2 := w1 + NodeWords(e, lex);
      var b := TokenOut(a, e.op, e.parent, e.token);
      OpeningReads(lex, b, w2, e);
      var w3 := w2 + OpenWords(e);
      OperandsRead(lex, Add(b, Opening(e)), w3, e);
      Regroup7(lex, ExprOut(o, e), ws, ExprWords(e.left, lex), NodeWords(e, lex), OpenWords(e), ExprWords(e.right, lex),
               SubSelectWords(e.select, e.op, lex), ListWords(e.list, e.op, LikeWords(e, lex), lex), CloseWords(e), Stops);
    }
  }

  /** The parts of an expression after its own text. */
  lemma OperandsRead(lex: Scanner, o: Out, ws: seq<Word>, e: Expr)
    requires Standard(lex) && e.Expr? && FairExpr(e, lex) && Grown(lex, o, ws, AfterNode(e))
    requires e.op.LikeKw? && e.token != "" ==> o.like == LikeText(e)
    ensures var c := ExprOut(o, e.right);
            var d := ListOut(SubSelectOut(c, e.select, e.op), e.list, e.op);
            Grown(lex, Add(d, Closing(e)),
                  ws + ExprWords(e.right, lex) + SubSelectWords(e.select, e.op, lex)
                  + ListWords(e.list, e.op, LikeWords(e, lex), lex) + CloseWords(e), Stops)
    decreases e, 0
  {
    var c := ExprOut(o, e.right);
    var w1 := ws + ExprWords(e.right, lex);
    var f1 := if e.right.Expr? then Stops else AfterNode(e);
    if e.right.Expr? { ExprReads(lex, o, ws, e.right); } else { Stay(lex, o, ws, AfterNode(e)); }
    assert Grown(lex, c, w1, f1);
    var d := SubSelectOut(c, e.select, e.op);
    var w2 := w1 + SubSelectWords(e.select, e.op, lex);
    var f2 := if e.select.Select? then Stops else f1;
    if e.select.Select? { SubSelectReads(lex, c, w1, e.select, e.op); } else { Stay(lex, c, w1, f1); }
    assert Grown(lex, d, w2, f2);
    OwnListReads(lex, d, w2, f2, e);
  }

  lemma OwnListReads(lex: Scanner, o: Out, ws: seq<Word>, f: Follow, e: Expr)
    requires Standard(lex) && e.Expr? && Apart(e, lex) && FairList(e.list, lex) && Grown(lex, o, ws, f)
    requires HasItems(e.list) && !e.op.Case? ==> f.Any?
    requires e.op.Function? && e.right.NoExpr? ==> f == AfterNode(e)
    requires e.op.LikeKw? && HasItems(e.list) ==> o.like == LikeText(e)
    ensures Grown(lex, Add(ListOut(o, e.list, e.op), Closing(e)),
                  ws + ListWords(e.list, e.op, LikeWords(e, lex), lex) + CloseWords(e), Stops)
    decreases e.list, Size(e.list) + 3
  {
    var w := ws + ListWords(e.list, e.op, LikeWords(e, lex), lex);
    if HasItems(e.list) {
      if e.op.LikeKw? { LikeReads(lex, e); }
      if e.op.Case? { Loosen(lex, o, ws, f, Stops); }
      ListReads(lex, o, ws, e.list, e.op, LikeText(e), LikeWords(e, lex));
      ClosingReads(lex, ListOut(o, e.list, e.op), w, e, Stops);
    } else {
      Stay(lex, o, ws, f);
      ClosingReads(lex, o, w, e, f);
    }
  }

  lemma SubSelectReads(lex: Scanner, o: Out, ws: seq<Word>, s: Select, op: Op)
    requires Standard(lex) && s.Select? && FairSelect(s, lex) && Grown(lex, o, ws, Any)
    ensures Grown(lex, SubSelectOut(o, s, op), ws + SubSelectWords(s, op, lex), Stops)
    decreases s, 3
  {
    if op.In? {
      SelectReads(lex, o, ws, s);
    } else {
      BracketedReads(lex, o, ws, s, Any, "(", ")");
      Loosen(lex, SubSelectOut(o, s, op), ws + SubSelectWords(s, op, lex), Any, Stops);
    }
  }

  /** A select in parentheses. */
  lemma BracketedReads(lex: Scanner, o: Out, ws: seq<Word>, s: Select, f: Follow, open: string, close: string)
    requires Standard(lex) && s.Select? && FairSelect(s, lex) && Grown(lex, o, ws, f)
    requires (open == " (" || (open == "(" && f.Any?)) && (close == ")" || close == ") ")
    ensures Grown(lex, Add(SelectOut(Add(o, open), s), close), ws + (OPEN + SelectWords(s, lex) + CLOSE), Any)
    decreases s, 2
  {
    MarksRead(lex);
    SpacedMarksRead(lex);
    var w := SelectWords(s, lex);
    Grow(lex, o, ws, f, open, OPEN, Any);
    SelectReads(lex, Add(o, open), ws + OPEN, s);
    Grow(lex, SelectOut(Add(o, open), s), ws + OPEN + w, Stops, close, CLOSE, Any);
    assert ws + OPEN + w + CLOSE == ws + (OPEN + w + CLOSE);
  }

  // ----- lists

  /** How the loop over a list has changed the operator and the escape flag. */
  predicate Mode(code: Op, i: nat, n: nat, op: Op, escape: bool) {
    if code.LikeKw? && i > 0 then op.Zero? && escape == (n >= 3) else op == code && !escape
  }

  function Between(code: Op): Follow {
    if code.Case? then Stops else Any
  }

  /** The word between the operands of a LIKE is at hand. */
  ghost predicate LikeReady(lex: Scanner, o: Out, x: ExprItem, i: nat, code: Op, like: string, lw: seq<Word>) {
    code.LikeKw? ==> Reads(lex, " " + like + " ", lw, Any) && (i == 0 ==> o.like == like && NoLike(x.expr))
  }

  lemma BeforeReads(lex: Scanner, o: Out, ws: seq<Word>, x: ExprItem, i: nat, op: Op)
    requires Standard(lex) && FairText(x.name, lex) && Grown(lex, o, ws, Between(op))
    ensures Grown(lex, Add(o, BeforeItem(x, i, op)), ws + BeforeWords(x, i, op, lex), Any)
  {
    if x.name.Text? && op.Set? {
      SolidReads(lex, x.name.text, Stops);
      SignPieceReads(lex, Eq, Zero);
      Join(lex, x.name.text, Named(x.name.text, lex), Stops, " = ", Sign(T.Eq, "="), Any);
      Grow(lex, o, ws, Any, x.name.text + " = ", BeforeWords(x, i, op, lex), Any);
    } else if op.Case? {
      SpacedPiece(lex, "when", " when ");
      SpacedPiece(lex, "then", " then ");
      Grow(lex, o, ws, Stops, BeforeItem(x, i, op), BeforeWords(x, i, op, lex), Any);
    } else {
      Stay(lex, o, ws, Any);
    }
  }

  lemma NameReads(lex: Scanner, o: Out, ws: seq<Word>, x: ExprItem, op: Op)
    requires Standard(lex) && FairText(x.name, lex) && Grown(lex, o, ws, Stops)
    ensures Grown(lex, Add(o, ItemName(x, op)), ws + NameWords(x, op, lex), Stops)
  {
    if x.name.NoText? || op.Set? {
      Stay(lex, o, ws, Stops);
    } else {
      if x.expr.Expr? && x.expr.op.Case? {
        WordAndText(lex, "end", " end ", x.name.text);
      } else {
        WordAndText(lex, "as", " as ", x.name.text);
      }
      Grow(lex, o, ws, Stops, ItemName(x, op), NameWords(x, op, lex), Stops);
    }
  }

  lemma DescReads(lex: Scanner)
    requires Standard(lex)
    ensures Reads(lex, " desc", Named("desc", lex), Called)
    ensures Reads(lex, " desc,", Named("desc", lex) + COMMA, Any)
  {
    EndPiece(lex, "desc", " desc");
    MarksRead(lex);
    Join(lex, " desc", Named("desc", lex), Called, ",", COMMA, Any);
    assert " desc" + "," == " desc,";
  }

  /** What follows an item is read as its separator. */
  lemma SeparatorReads(lex: Scanner, x: ExprItem, i: nat, n: nat, code: Op, op: Op, escape: bool, like: string, lw: seq<Word>)
    requires Standard(lex) && i < n && Mode(code, i, n, op, escape)
    requires code.LikeKw? && i == 0 ==> Reads(lex, " " + like + " ", lw, Any)
    ensures var t, w := AfterItem(x, i == n - 1, op, escape, like), SeparatorWords(x, i, n, code, lw, lex);
            if t == "" then w == [] && (i == n - 1 || code.Case?)
            else Allows(Stops, t[0]) && Reads(lex, t, w, if i == n - 1 then Called else Any)
  {
    DescReads(lex);
    MarksRead(lex);
    SpacedPiece(lex, "and", " and ");
    SpacedPiece(lex, "escape", " escape ");
    Empties(lex, SeparatorTail(x, i, n, code, lw, lex));
  }

  function SeparatorTail(x: ExprItem, i: nat, n: nat, op: Op, like: seq<Word>, lex: Scanner): seq<Word> {
    if i == n - 1 || op.Case? then []
    else if op.Between? then Named("and", lex)
    else if op.LikeKw? then if i == 0 then like else Named("escape", lex)
    else COMMA
  }

  lemma Empties(lex: Scanner, w: seq<Word>)
    ensures [] + w == w && Named("desc", lex) + [] == Named("desc", lex)
  {}

  lemma AfterReads(lex: Scanner, o: Out, ws: seq<Word>, x: ExprItem, i: nat, n: nat, code: Op, op: Op, escape: bool, lw: seq<Word>)
    requires Standard(lex) && i < n && Mode(code, i, n, op, escape) && Grown(lex, o, ws, Stops)
    requires code.LikeKw? && i == 0 ==> Reads(lex, " " + o.like + " ", lw, Any)
    ensures Grown(lex, Add(o, AfterItem(x, i == n - 1, op, escape, o.like)), ws + SeparatorWords(x, i, n, code, lw, lex),
                  if i == n - 1 then Stops else Between(code))
  {
    var t, w := AfterItem(x, i == n - 1, op, escape, o.like), SeparatorWords(x, i, n, code, lw, lex);
    SeparatorReads(lex, x, i, n, code, op, escape, o.like, lw);
    if t == "" {
      Stay(lex, o, ws, Stops);
    } else {
      var f := if i == n - 1 then Called else Any;
      Grow(lex, o, ws, Stops, t, w, f);
      Loosen(lex, Add(o, t), ws + w, f, if i == n - 1 then Stops else Between(code));
    }
  }

  lemma Regroup4(lex: Scanner, o: Out, ws: seq<Word>, a: seq<Word>, b: seq<Word>, c: seq<Word>, d: seq<Word>, f: Follow)
    requires Grown(lex, o, ws + a + b + c + d, f)
    ensures Grown(lex, o, ws + (a + b + c + d), f)
  {
    assert ws + a + b + c + d == ws + (a + b + c + d);
  }

  /** An expression without LIKE leaves the stored word alone. */
  lemma {:induction false} LikeStays(o: Out, e: Expr)
    requires NoLike(e)
    ensures ExprOut(o, e).like == o.like
    decreases e, 0
  {
    if e.Expr? {
      LikeStays(o, e.left);
      var b := Add(TokenOut(ExprOut(o, e.left), e.op, e.parent, e.token), Opening(e));
      LikeStays(b, e.right);
      if e.list.ExprList? { LikeStaysItems(ExprOut(b, e.right), e.list, 0, e.op, false); }
    }
  }

  lemma LikeStaysItem(o: Out, x: ExprItem, i: nat, last: bool, op: Op, escape: bool)
    requires NoLike(x.expr)
    ensures ItemOut(o, x, i, last, op, escape).like == o.like
    decreases x, 0
  {
    LikeStays(Add(o, BeforeItem(x, i, op)), x.expr);
  }

  lemma {:induction false} LikeStaysItems(o: Out, l: ExprList, i: nat, op: Op, escape: bool)
    requires l.ExprList? && i <= |l.items| && forall k :: 0 <= k < |l.items| ==> NoLike(l.items[k].expr)
    ensures ItemsOut(o, l, i, op, escape).like == o.like
    decreases l, |l.items| - i
  {
    if i < |l.items| {
      var last := i == |l.items| - 1;
      LikeStaysItem(o, l.items[i], i, last, op, escape);
      var a := ItemOut(o, l.items[i], i, last, op, escape);
      if !last && op.LikeKw? {
        LikeStaysItems(a, l, i + 1, Zero, escape || |l.items| >= 3);
      } else {
        LikeStaysItems(a, l, i + 1, op, escape);
      }
    }
  }

  lemma SameBefore(x: ExprItem, i: nat, n: nat, code: Op, op: Op, escape: bool, lex: Scanner)
    requires Mode(code, i, n, op, escape)
    ensures BeforeWords(x, i, op, lex) == BeforeWords(x, i, code, lex) && NameWords(x, op, lex) == NameWords(x, code, lex)
    ensures Between(op) == Between(code)
  {}

  lemma ItemReads(lex: Scanner, o: Out, ws: seq<Word>, x: ExprItem, i: nat, n: nat, code: Op, op: Op, escape: bool,
                  like: string, lw: seq<Word>)
    requires Standard(lex) && i < n && Mode(code, i, n, op, escape) && FairItem(x, lex)
    requires LikeReady(lex, o, x, i, code, like, lw) && Grown(lex, o, ws, Between(code))
    ensures Grown(lex, ItemOut(o, x, i, i == n - 1, op, escape), ws + ItemWords(x, i, n, code, lw, lex),
                  if i == n - 1 then Stops else Between(code))
    decreases x, 0
  {
    var before, name := BeforeItem(x, i, op), ItemName(x, op);
    var w1, w2, w3 := BeforeWords(x, i, code, lex), ExprWords(x.expr, lex), NameWords(x, code, lex);
    SameBefore(x, i, n, code, op, escape, lex);
    BeforeReads(lex, o, ws, x, i, op);
    ExprReads(lex, Add(o, before), ws + w1, x.expr);
    var a := ExprOut(Add(o, before), x.expr);
    Loosen(lex, a, ws + w1 + w2, if x.expr.NoExpr? then Any else Stops, Stops);
    NameReads(lex, a, ws + w1 + w2, x, op);
    if code.LikeKw? && i == 0 { LikeStays(Add(o, before), x.expr); }
    AfterReads(lex, Add(a, name), ws + w1 + w2 + w3, x, i, n, code, op, escape, lw);
    Regroup4(lex, ItemOut(o, x, i, i == n - 1, op, escape), ws, w1, w2, w3, SeparatorWords(x, i, n, code, lw, lex),
             if i == n - 1 then Stops else Between(code));
  }

  function NextOp(op: Op, i: nat, n: nat): Op {
    if i < n - 1 && op.LikeKw? then Zero else op
  }

  function NextEscape(op: Op, i: nat, n: nat, escape: bool): bool {
    if i < n - 1 && op.LikeKw? then escape || n >= 3 else escape
  }

  lemma NextMode(lex: Scanner, o: Out, l: ExprList, i: nat, code: Op, op: Op, escape: bool, like: string, lw: seq<Word>)
    requires l.ExprList? && i + 1 <= |l.items| && Mode(code, i, |l.items|, op, escape)
    requires code.LikeKw? ==> Reads(lex, " " + like + " ", lw, Any)
    ensures var n := |l.items|;
            i + 1 < n ==> && Mode(code, i + 1, n, NextOp(op, i, n), NextEscape(op, i, n, escape))
                          && LikeReady(lex, o, l.items[i + 1], i + 1, code, like, lw)
  {}

  lemma ItemsOutStep(o: Out, l: ExprList, i: nat, op: Op, escape: bool)
    requires l.ExprList? && i < |l.items|
    ensures var n := |l.items|;
            ItemsOut(o, l, i, op, escape)
            == ItemsOut(ItemOut(o, l.items[i], i, i == n - 1, op, escape), l, i + 1, NextOp(op, i, n), NextEscape(op, i, n, escape))
  {}

  lemma {:induction false} ItemsRead(lex: Scanner, o: Out, ws: seq<Word>, l: ExprList, i: nat, code: Op, op: Op, escape: bool,
                                     like: string, lw: seq<Word>)
    requires Standard(lex) && l.ExprList? && i <= |l.items| && FairList(l, lex)
    requires i < |l.items| ==> Mode(code, i, |l.items|, op, escape) && LikeReady(lex, o, l.items[i], i, code, like, lw)
    requires Grown(lex, o, ws, if i == |l.items| then Stops else Between(code))
    ensures Grown(lex, ItemsOut(o, l, i, op, escape), ws + ItemsWords(l, i, code, lw, lex), Stops)
    decreases l, |l.items| - i
  {
    var n := |l.items|;
    if i == n {
      Stay(lex, o, ws, Stops);
    } else {
      var a, w := ItemOut(o, l.items[i], i, i == n - 1, op, escape), ItemWords(l.items[i], i, n, code, lw, lex);
      ItemReads(lex, o, ws, l.items[i], i, n, code, op, escape, like, lw);
      var op', escape' := NextOp(op, i, n), NextEscape(op, i, n, escape);
      NextMode(lex, a, l, i, code, op, escape, like, lw);
      ItemsRead(lex, a, ws + w, l, i + 1, code, op', escape', like, lw);
      ItemsOutStep(o, l, i, op, escape);
      Regroup(lex, ItemsOut(o, l, i, op, escape), ws, w, ItemsWords(l, i + 1, code, lw, lex), Stops);
    }
  }

  lemma ListReads(lex: Scanner, o: Out, ws: seq<Word>, l: ExprList, op: Op, like: string, lw: seq<Word>)
    requires Standard(lex) && FairList(l, lex) && Grown(lex, o, ws, Between(op))
    requires HasItems(l) ==> LikeReady(lex, o, l.items[0], 0, op, like, lw)
    ensures Grown(lex, ListOut(o, l, op), ws + ListWords(l, op, lw, lex), Stops)
    decreases l, Size(l) + 1
  {
    if l.NoList? {
      Stay(lex, o, ws, Between(op));
      Loosen(lex, o, ws + [], Between(op), Stops);
    } else {
      if l.items == [] { Loosen(lex, o, ws, Between(op), Stops); }
      ItemsRead(lex, o, ws, l, 0, op, op, false, like, lw);
    }
  }

  // ----- selects

  lemma ClauseReads(lex: Scanner, o: Out, ws: seq<Word>, head: string, hw: seq<Word>, e: Expr)
    requires Standard(lex) && FairExpr(e, lex) && Grown(lex, o, ws, Stops)
    requires head != "" && head[0] == ' ' && Reads(lex, head, hw, Any)
    ensures Grown(lex, Clause(o, head, e), ws + ClauseWords(hw, e, lex), Stops)
    decreases e, 2
  {
    if e.NoExpr? {
      Stay(lex, o, ws, Stops);
    } else {
      Grow(lex, o, ws, Stops, head, hw, Any);
      ExprReads(lex, Add(o, head), ws + hw, e);
      Regroup(lex, Clause(o, head, e), ws, hw, ExprWords(e, lex), Stops);
    }
  }

  lemma ListClauseReads(lex: Scanner, o: Out, ws: seq<Word>, head: string, hw: seq<Word>, l: ExprList, op: Op)
    requires Standard(lex) && FairList(l, lex) && Grown(lex, o, ws, Stops) && !op.LikeKw? && !op.Case?
    requires head != "" && head[0] == ' ' && Reads(lex, head, hw, Any)
    ensures Grown(lex, ListClause(o, head, l, op), ws + ListClauseWords(hw, l, op, lex), Stops)
    decreases l, Size(l) + 2
  {
    if l.NoList? {
      Stay(lex, o, ws, Stops);
    } else {
      Grow(lex, o, ws, Stops, head, hw, Any);
      ListReads(lex, Add(o, head), ws + hw, l, op, "", []);
      Regroup(lex, ListClause(o, head, l, op), ws, hw, ListWords(l, op, [], lex), Stops);
    }
  }

  /** The heads of the clauses. */
  lemma HeadsRead(lex: Scanner)
    requires Standard(lex)
    ensures Reads(lex, " where ", Named("where", lex), Any) && Reads(lex, " having ", Named("having", lex), Any)
    ensures Reads(lex, " limit ", Named("limit", lex), Any) && Reads(lex, " offset ", Named("offset", lex), Any)
  {
    SpacedPiece(lex, "where", " where ");
    SpacedPiece(lex, "having", " having ");
    SpacedPiece(lex, "limit", " limit ");
    SpacedPiece(lex, "offset", " offset ");
  }

  lemma ListHeadsRead(lex: Scanner)
    requires Standard(lex)
    ensures Reads(lex, " group by ", Named("group", lex) + Named("by", lex), Any)
    ensures Reads(lex, " order by ", Named("order", lex) + Named("by", lex), Any)
  {
    SpacedTwoPiece(lex, "group", "by", " group by ");
    SpacedTwoPiece(lex, "order", "by", " order by ");
  }

  lemma SelectWordReads(lex: Scanner, distinct: bool)
    requires Standard(lex)
    ensures Reads(lex, if distinct then "select distinct " else "select ",
                  Named("select", lex) + (if distinct then Named("distinct", lex) else []), Any)
  {
    if distinct {
      TwoPiece(lex, "select", "distinct", "select distinct ");
    } else {
      BeginPiece(lex, "select", "select ");
      assert Named("select", lex) + [] == Named("select", lex);
    }
  }

  /** The clauses of a select are read in order. */
  lemma {:induction false} SelectReads(lex: Scanner, o: Out, ws: seq<Word>, s: Select)
    requires Standard(lex) && s.Select? && FairSelect(s, lex) && Grown(lex, o, ws, Any)
    ensures Grown(lex, SelectOut(o, s), ws + SelectWords(s, lex), Stops)
    decreases s, 1
  {
    SelectHeadReads(lex, o, ws, s);
    SelectTailReads(lex, SelectHead(o, s), ws + SelectHeadWords(s, lex), s);
    Regroup(lex, SelectOut(o, s), ws, SelectHeadWords(s, lex), SelectTailWords(s, lex), Stops);
  }

  ghost function PriorWords(s: Select, lex: Scanner): seq<Word>
    requires s.Select?
  {
    if s.prior.Select? then SelectWords(s.prior, lex) + Named("union", lex) else []
  }

  lemma PriorReads(lex: Scanner, o: Out, ws: seq<Word>, s: Select)
    requires Standard(lex) && s.Select? && FairSelect(s, lex) && Grown(lex, o, ws, Any)
    ensures Grown(lex, PriorOut(o, s), ws + PriorWords(s, lex), Any)
    decreases s, 0, 0
  {
    if s.prior.NoSelect? {
      Stay(lex, o, ws, Any);
    } else {
      var w := SelectWords(s.prior, lex);
      SelectReads(lex, o, ws, s.prior);
      SpacedPiece(lex, "union", " union ");
      GrowBy(lex, SelectOut(o, s.prior), ws, w, Stops, " union ", Named("union", lex), Any);
    }
  }

  ghost function FromWords(l: SrcList, lex: Scanner): seq<Word> {
    if l.NoSrc? || l.items == [] then [] else Named("from", lex) + SrcWords(l, lex)
  }

  lemma FromReads(lex: Scanner, o: Out, ws: seq<Word>, l: SrcList)
    requires Standard(lex) && FairSrc(l, lex) && Grown(lex, o, ws, Stops)
    ensures Grown(lex, FromOut(o, l), ws + FromWords(l, lex), Stops)
    decreases l, SrcSize(l) + 2
  {
    if l.NoSrc? || l.items == [] {
      Stay(lex, o, ws, Stops);
    } else {
      SpacedPiece(lex, "from", " from ");
      Grow(lex, o, ws, Stops, " from ", Named("from", lex), Any);
      SrcReads(lex, Add(o, " from "), ws + Named("from", lex), l);
      Regroup(lex, FromOut(o, l), ws, Named("from", lex), SrcWords(l, lex), Stops);
    }
  }

  lemma SelectHeadReads(lex: Scanner, o: Out, ws: seq<Word>, s: Select)
    requires Standard(lex) && s.Select? && FairSelect(s, lex) && Grown(lex, o, ws, Any)
    ensures Grown(lex, SelectHead(o, s), ws + SelectHeadWords(s, lex), Stops)
    decreases s, 0, 1
  {
    var head := if s.distinct then "select distinct " else "select ";
    var w1, w3 := PriorWords(s, lex), if s.distinct then Named("distinct", lex) else [];
    var w2 := Named("select", lex) + w3;
    var w4 := ListWords(s.columns, Zero, [], lex);
    PriorReads(lex, o, ws, s);
    SelectWordReads(lex, s.distinct);
    var a := PriorOut(o, s);
    Grow(lex, a, ws + w1, Any, head, w2, Any);
    ListReads(lex, Add(a, head), ws + w1 + w2, s.columns, Zero, "", []);
    FromReads(lex, ListOut(Add(a, head), s.columns, Zero), ws + w1 + w2 + w4, s.src);
    Regroup4(lex, SelectHead(o, s), ws, w1, w2, w4, FromWords(s.src, lex), Stops);
    assert w1 + Named("select", lex) + w3 == w1 + w2;
  }

  lemma SelectTailReads(lex: Scanner, o: Out, ws: seq<Word>, s: Select)
    requires Standard(lex) && s.Select? && FairSelect(s, lex) && Grown(lex, o, ws, Stops)
    ensures Grown(lex, SelectTail(o, s), ws + SelectTailWords(s, lex), Stops)
    decreases s, 0, 1
  {
    var h2, h3 := Named("group", lex) + Named("by", lex), Named("order", lex) + Named("by", lex);
    HeadsRead(lex);
    ListHeadsRead(lex);
    var w1 := ClauseWords(Named("where", lex), s.where, lex);
    var o1 := Clause(o, " where ", s.where);
    ClauseReads(lex, o, ws, " where ", Named("where", lex), s.where);
    var w2 := ListClauseWords(h2, s.groupBy, Zero, lex);
    var o2 := ListClause(o1, " group by ", s.groupBy, Zero);
    ListClauseReads(lex, o1, ws + w1, " group by ", h2, s.groupBy, Zero);
    Regroup(lex, o2, ws, w1, w2, Stops);
    var w3 := ListClauseWords(h3, s.orderBy, Order, lex);
    var o3 := ListClause(o2, " order by ", s.orderBy, Order);
    ListClauseReads(lex, o2, ws + (w1 + w2), " order by ", h3, s.orderBy, Order);
    Regroup(lex, o3, ws, w1 + w2, w3, Stops);
    SelectEndReads(lex, o3, ws, w1 + w2 + w3, s);
  }

  lemma SelectEndReads(lex: Scanner, o: Out, ws: seq<Word>, w: seq<Word>, s: Select)
    requires Standard(lex) && s.Select? && FairSelect(s, lex) && Grown(lex, o, ws + w, Stops)
    ensures Grown(lex, Clause(Clause(Clause(o, " having ", s.having), " limit ", s.limit), " offset ", s.offset),
                  ws + (w + ClauseWords(Named("having", lex), s.having, lex) + ClauseWords(Named("limit", lex), s.limit, lex)
                        + ClauseWords(Named("offset", lex), s.offset, lex)), Stops)
    decreases s, 0, 0
  {
    HeadsRead(lex);
    var w4 := ClauseWords(Named("having", lex), s.having, lex);
    var o4 := Clause(o, " having ", s.having);
    ClauseReads(lex, o, ws + w, " having ", Named("having", lex), s.having);
    Regroup(lex, o4, ws, w, w4, Stops);
    var w5, w6 := ClauseWords(Named("limit", lex), s.limit, lex), ClauseWords(Named("offset", lex), s.offset, lex);
    var o5 := Clause(o4, " limit ", s.limit);
    ClauseReads(lex, o4, ws + (w + w4), " limit ", Named("limit", lex), s.limit);
    Regroup(lex, o5, ws, w + w4, w5, Stops);
    ClauseReads(lex, o5, ws + (w + w4 + w5), " offset ", Named("offset", lex), s.offset);
    Regroup(lex, Clause(o5, " offset ", s.offset), ws, w + w4 + w5, w6, Stops);
  }

  // ----- tables

  lemma {:induction false} IdsRead(lex: Scanner, o: Out, ws: seq<Word>, names: seq<string>, i: nat)
    requires Standard(lex) && i <= |names| && forall k :: 0 <= k < |names| ==> Solid(lex, names[k], Stops)
    requires Grown(lex, o, ws, if i < |names| then Any else Stops)
    ensures Grown(lex, IdsOut(o, names, i), ws + IdsWords(names, i, lex), Stops)
    decreases |names| - i
  {
    if i == |names| {
      Stay(lex, o, ws, Stops);
    } else {
      var comma, w := i < |names| - 1, Named(names[i], lex) + (if i < |names| - 1 then COMMA else []);
      var t := names[i] + if comma then "," else "";
      IdReads(lex, names[i], comma);
      Grow(lex, o, ws, Any, t, w, if comma then Any else Stops);
      IdsRead(lex, Add(o, t), ws + w, names, i + 1);
      Regroup(lex, IdsOut(o, names, i), ws, w, IdsWords(names, i + 1, lex), Stops);
    }
  }

  lemma IdReads(lex: Scanner, name: string, comma: bool)
    requires Standard(lex) && Solid(lex, name, Stops)
    ensures Reads(lex, name + if comma then "," else "", Named(name, lex) + if comma then COMMA else [],
                  if comma then Any else Stops)
  {
    SolidReads(lex, name, Stops);
    if comma {
      MarksRead(lex);
      Join(lex, name, Named(name, lex), Stops, ",", COMMA, Any);
    } else {
      assert name + "" == name && Named(name, lex) + [] == Named(name, lex);
    }
  }

  lemma DotAfter(lex: Scanner, name: string)
    requires Standard(lex) && Solid(lex, name, Stops)
    ensures Reads(lex, name + ".", Named(name, lex) + Sign(T.Dot, "."), Any)
  {
    SolidReads(lex, name, Stops);
    assert Knows(lex, DotMark);
    SignReads(lex, ".", T.Dot, Any);
    Join(lex, name, Named(name, lex), Stops, ".", Sign(T.Dot, "."), Any);
  }

  /** The name of a table, unless the join before it has printed it. */
  lemma TableHeadReads(lex: Scanner, o: Out, ws: seq<Word>, x: SrcItem, named: bool)
    requires Standard(lex) && FairSrcItem(x, lex) && Grown(lex, o, ws, Any)
    ensures Grown(lex, Add(o, TableHead(x, named)), ws + TableWords(x, named, lex), if named || x.name.NoText? then Any else Stops)
  {
    var dw := if x.database.Text? then Named(x.database.text, lex) + Sign(T.Dot, ".") else [];
    var d := if x.database.Text? then x.database.text + "." else "";
    if x.database.Text? {
      DotAfter(lex, x.database.text);
      Grow(lex, o, ws, Any, d, dw, Any);
    } else {
      Stay(lex, o, ws, Any);
    }
    var o1 := Add(o, d);
    if !named && x.name.Text? {
      TextReads(lex, o1, ws + dw, x.name.text, Stops);
      Regroup(lex, Add(o1, x.name.text), ws, dw, Named(x.name.text, lex), Stops);
      AddTwice(o, d, x.name.text);
    } else {
      AddTwice(o, d, "");
      Stay(lex, o1, ws + dw, Any);
      Regroup(lex, o1, ws, dw, [], Any);
    }
  }

  lemma AddTwice(o: Out, s: string, t: string)
    ensures Add(Add(o, s), t) == Add(o, s + t)
  {
    assert o.sql + s + t == o.sql + (s + t);
  }

  lemma TableSelectReads(lex: Scanner, o: Out, ws: seq<Word>, s: Select, f: Follow)
    requires Standard(lex) && FairSelect(s, lex) && Grown(lex, o, ws, f)
    ensures Grown(lex, TableOut(o, s), ws + TableSelectWords(s, lex), if s.NoSelect? then f else Any)
    decreases s, 3
  {
    if s.NoSelect? { Stay(lex, o, ws, f); } else { BracketedReads(lex, o, ws, s, f, " (", ") "); }
  }

  lemma AliasReads(lex: Scanner, o: Out, ws: seq<Word>, x: SrcItem)
    requires Standard(lex) && FairText(x.alias, lex) && Grown(lex, o, ws, Stops)
    ensures Grown(lex, Add(o, Alias(x)), ws + AliasWords(x, lex), Stops)
  {
    if x.alias.NoText? {
      Stay(lex, o, ws, Stops);
    } else {
      WordAndText(lex, "as", " as ", x.alias.text);
      Grow(lex, o, ws, Stops, Alias(x), AliasWords(x, lex), Stops);
    }
  }

  lemma UsingReads(lex: Scanner, o: Out, ws: seq<Word>, l: IdList, f: Follow)
    requires Standard(lex) && FairIds(l, lex) && Grown(lex, o, ws, f)
    ensures Grown(lex, UsingOut(o, l), ws + UsingWords(l, lex), if l.NoIds? then f else Any)
  {
    if l.NoIds? {
      Stay(lex, o, ws, f);
    } else {
      var h := Named("using", lex) + OPEN;
      WordOpens(lex, "using");
      assert " " + "using" + " " + "(" == " using (";
      Grow(lex, o, ws, f, " using (", h, Any);
      if l.names == [] { Loosen(lex, Add(o, " using ("), ws + h, Any, Stops); }
      IdsRead(lex, Add(o, " using ("), ws + h, l.names, 0);
      SpacedMarksRead(lex);
      Grow(lex, IdListOut(Add(o, " using ("), l), ws + h + IdsWords(l.names, 0, lex), Stops, ") ", CLOSE, Any);
      Regroup3(lex, UsingOut(o, l), ws, h, IdsWords(l.names, 0, lex), CLOSE, Any);
    }
  }

  lemma Regroup3(lex: Scanner, o: Out, ws: seq<Word>, a: seq<Word>, b: seq<Word>, c: seq<Word>, f: Follow)
    requires Grown(lex, o, ws + a + b + c, f)
    ensures Grown(lex, o, ws + (a + b + c), f)
  {
    assert ws + a + b + c == ws + (a + b + c);
  }

  lemma OnReads(lex: Scanner, o: Out, ws: seq<Word>, e: Expr, f: Follow)
    requires Standard(lex) && FairExpr(e, lex) && Grown(lex, o, ws, f)
    ensures Grown(lex, OnOut(o, e), ws + OnWords(e, lex), if e.NoExpr? then f else Any)
    decreases e, 2
  {
    if e.NoExpr? {
      Stay(lex, o, ws, f);
    } else {
      var h := Named("on", lex) + OPEN;
      WordOpens(lex, "on");
      assert " " + "on" + " " + "(" == " on (";
      Grow(lex, o, ws, f, " on (", h, Any);
      ExprReads(lex, Add(o, " on ("), ws + h, e);
      SpacedMarksRead(lex);
      Grow(lex, ExprOut(Add(o, " on ("), e), ws + h + ExprWords(e, lex), Stops, ") ", CLOSE, Any);
      Regroup3(lex, OnOut(o, e), ws, h, ExprWords(e, lex), CLOSE, Any);
    }
  }

  /** One more word of a join, if it applies. */
  lemma JoinWord(lex: Scanner, t: string, ws: seq<Word>, b: bool, w: string, s: string)
    requires Standard(lex) && Letters(w) && s == " " + w
    requires if t == "" then ws == [] else t[0] == ' ' && Reads(lex, t, ws, Called)
    ensures var t', ws' := t + (if b then s else ""), ws + If(b, w, lex);
            if t' == "" then ws' == [] else t'[0] == ' ' && Reads(lex, t', ws', Called)
  {
    EndPiece(lex, w, s);
    if !b {
      assert t + "" == t && ws + [] == ws;
    } else if t == "" {
      assert "" + s == s && [] + Named(w, lex) == Named(w, lex);
    } else {
      Join(lex, t, ws, Called, s, Named(w, lex), Called);
    }
  }

  function JoinFirst(j: bv8): string {
    (if j & 0x08 != 0 then " left" else "") + (if j & 0x10 != 0 then " right" else "") + (if j & 0x80 != 0 then " full" else "")
  }

  function JoinFirstKinds(j: bv8, lex: Scanner): seq<Word> {
    If(j & 0x08 != 0, "left", lex) + If(j & 0x10 != 0, "right", lex) + If(j & 0x80 != 0, "full", lex)
  }

  lemma JoinFirstReads(lex: Scanner, j: bv8)
    requires Standard(lex)
    ensures var t, w := JoinFirst(j), JoinFirstKinds(j, lex);
            if t == "" then w == [] else t[0] == ' ' && Reads(lex, t, w, Called)
  {
    var b1, b2 := j & 0x08 != 0, j & 0x10 != 0;
    EndPiece(lex, "left", " left");
    var t1, w1 := if b1 then " left" else "", If(b1, "left", lex);
    JoinWord(lex, t1, w1, b2, "right", " right");
    JoinWord(lex, t1 + (if b2 then " right" else ""), w1 + If(b2, "right", lex), j & 0x80 != 0, "full", " full");
  }

  lemma JoinWordsRead(lex: Scanner, j: bv8)
    requires Standard(lex)
    ensures Reads(lex, JoinWords(j), JoinKinds(j, lex), Any) && JoinWords(j)[0] == ' '
  {
    JoinFirstReads(lex, j);
    JoinRest(lex, JoinFirst(j), JoinFirstKinds(j, lex), j & 0x04 != 0, j & 0x20 != 0);
  }

  lemma JoinRest(lex: Scanner, t: string, ws: seq<Word>, natural: bool, outer: bool)
    requires Standard(lex) && if t == "" then ws == [] else t[0] == ' ' && Reads(lex, t, ws, Called)
    ensures var t', ws' := t + (if natural then " natural" else "") + (if outer then " outer" else "") + " join ",
                           ws + If(natural, "natural", lex) + If(outer, "outer", lex) + Named("join", lex);
            Reads(lex, t', ws', Any) && t'[0] == ' '
  {
    var t1, w1 := t + (if natural then " natural" else ""), ws + If(natural, "natural", lex);
    JoinWord(lex, t, ws, natural, "natural", " natural");
    JoinWord(lex, t1, w1, outer, "outer", " outer");
    JoinLast(lex, t1 + (if outer then " outer" else ""), w1 + If(outer, "outer", lex));
  }

  lemma JoinLast(lex: Scanner, t: string, ws: seq<Word>)
    requires Standard(lex) && if t == "" then ws == [] else t[0] == ' ' && Reads(lex, t, ws, Called)
    ensures Reads(lex, t + " join ", ws + Named("join", lex), Any) && (t + " join ")[0] == ' '
  {
    SpacedPiece(lex, "join", " join ");
    if t == "" {
      assert t + " join " == " join " && ws + Named("join", lex) == Named("join", lex);
    } else {
      Join(lex, t, ws, Called, " join ", Named("join", lex), Any);
    }
  }

  /** What stands between two tables, and what may follow it. */
  function AfterFollow(items: seq<SrcItem>, i: nat): Follow
    requires i < |items|
  {
    if !Joins(items[i]) && i < |items| - 1 then Any else Stops
  }

  lemma AfterTableReads(lex: Scanner, o: Out, ws: seq<Word>, l: SrcList, i: nat)
    requires Standard(lex) && l.SrcList? && i < |l.items| && FairSrc(l, lex) && Grown(lex, o, ws, Stops)
    ensures Grown(lex, Add(o, AfterTable(l.items, i)), ws + AfterWords(l.items, i, lex), AfterFollow(l.items, i))
  {
    var x := l.items[i];
    if Joins(x) {
      var t, w := JoinWords(x.join), JoinKinds(x.join, lex);
      JoinWordsRead(lex, x.join);
      Grow(lex, o, ws, Stops, t, w, Any);
      if i < |l.items| - 1 && l.items[i + 1].name.Text? {
        var name := l.items[i + 1].name.text;
        assert FairSrcItem(l.items[i + 1], lex);
        TextReads(lex, Add(o, t), ws + w, name, Stops);
        AddTwice(o, t, name);
        Regroup(lex, Add(o, t + name), ws, w, Named(name, lex), Stops);
      } else {
        AddTwice(o, t, "");
        Stay(lex, Add(o, t), ws + w, Any);
        Regroup(lex, Add(o, t), ws, w, [], Any);
        Loosen(lex, Add(o, t), ws + (w + []), Any, Stops);
      }
    } else if i < |l.items| - 1 {
      MarksRead(lex);
      Grow(lex, o, ws, Stops, ",", COMMA, Any);
    } else {
      Stay(lex, o, ws, Stops);
    }
  }

  lemma Regroup6(lex: Scanner, o: Out, ws: seq<Word>, a: seq<Word>, b: seq<Word>, c: seq<Word>, d: seq<Word>,
                 e: seq<Word>, g: seq<Word>, f: Follow)
    requires Grown(lex, o, ws + a + b + c + d + e + g, f)
    ensures Grown(lex, o, ws + (a + b + c + d + e + g), f)
  {
    assert ws + a + b + c + d + e + g == ws + (a + b + c + d + e + g);
  }

  /** A table is read as its name, its sub-select, its alias, the join and the condition. */
  lemma SrcItemReads(lex: Scanner, o: Out, ws: seq<Word>, l: SrcList, i: nat, named: bool)
    requires Standard(lex) && l.SrcList? && i < |l.items| && FairSrc(l, lex) && Grown(lex, o, ws, Any)
    ensures Grown(lex, SrcItemOut(o, l.items[i], named, AfterTable(l.items, i)),
                  ws + SrcItemWords(l.items[i], named, AfterWords(l.items, i, lex), lex),
                  if i < |l.items| - 1 then Any else Stops)
    decreases l, 0
  {
    var x, after := l.items[i], AfterTable(l.items, i);
    var w1, w2, w3 := TableWords(x, named, lex), TableSelectWords(x.select, lex), AliasWords(x, lex);
    var w4, w5, w6 := AfterWords(l.items, i, lex), UsingWords(x.using, lex), OnWords(x.on, lex);
    var f1 := if named || x.name.NoText? then Any else Stops;
    assert FairSrcItem(x, lex);
    TableHeadReads(lex, o, ws, x, named);
    var o1 := Add(o, TableHead(x, named));
    TableSelectReads(lex, o1, ws + w1, x.select, f1);
    var o2 := TableOut(o1, x.select);
    Loosen(lex, o2, ws + w1 + w2, if x.select.NoSelect? then f1 else Any, Stops);
    AliasReads(lex, o2, ws + w1 + w2, x);
    AfterTableReads(lex, Add(o2, Alias(x)), ws + w1 + w2 + w3, l, i);
    var o3 := Add(Add(o2, Alias(x)), after);
    var f3 := AfterFollow(l.items, i);
    UsingReads(lex, o3, ws + w1 + w2 + w3 + w4, x.using, f3);
    var o4 := UsingOut(o3, x.using);
    var f4 := if x.using.NoIds? then f3 else Any;
    OnReads(lex, o4, ws + w1 + w2 + w3 + w4 + w5, x.on, f4);
    Loosen(lex, OnOut(o4, x.on), ws + w1 + w2 + w3 + w4 + w5 + w6, if x.on.NoExpr? then f4 else Any,
           if i < |l.items| - 1 then Any else Stops);
    Regroup6(lex, OnOut(o4, x.on), ws, w1, w2, w3, w4, w5, w6, if i < |l.items| - 1 then Any else Stops);
  }

  lemma {:induction false} SrcItemsRead(lex: Scanner, o: Out, ws: seq<Word>, l: SrcList, i: nat, named: bool)
    requires Standard(lex) && l.SrcList? && i <= |l.items| && FairSrc(l, lex)
    requires Grown(lex, o, ws, if i < |l.items| then Any else Stops)
    ensures Grown(lex, SrcItemsOut(o, l, i, named), ws + SrcItemsWords(l, i, named, lex), Stops)
    decreases l, |l.items| - i
  {
    if i == |l.items| {
      Stay(lex, o, ws, Stops);
    } else {
      var next := NamesNext(l.items, i);
      var w := SrcItemWords(l.items[i], named, AfterWords(l.items, i, lex), lex);
      SrcItemReads(lex, o, ws, l, i, named);
      SrcItemsRead(lex, SrcItemOut(o, l.items[i], named, AfterTable(l.items, i)), ws + w, l, i + 1, next);
      Regroup(lex, SrcItemsOut(o, l, i, named), ws, w, SrcItemsWords(l, i + 1, next, lex), Stops);
    }
  }

  lemma SrcReads(lex: Scanner, o: Out, ws: seq<Word>, l: SrcList)
    requires Standard(lex) && FairSrc(l, lex) && Grown(lex, o, ws, Any)
    ensures Grown(lex, SrcOut(o, l), ws + SrcWords(l, lex), Stops)
    decreases l, SrcSize(l) + 1
  {
    if l.NoSrc? {
      Stay(lex, o, ws, Any);
      Loosen(lex, o, ws + [], Any, Stops);
    } else {
      if l.items == [] { Loosen(lex, o, ws, Any, Stops); }
      SrcItemsRead(lex, o, ws, l, 0, false);
    }
  }

  // ----- statements

  lemma EndReads(lex: Scanner, o: Out, ws: seq<Word>, where: Expr, limit: Expr, offset: Expr)
    requires Standard(lex) && FairExpr(where, lex) && FairExpr(limit, lex) && FairExpr(offset, lex) && Grown(lex, o, ws, Stops)
    ensures Grown(lex, Clause(Clause(Clause(o, " where ", where), " limit ", limit), " offset ", offset),
                  ws + EndWords(where, limit, offset, lex), Stops)
  {
    HeadsRead(lex);
    var w1 := ClauseWords(Named("where", lex), where, lex);
    var w2, w3 := ClauseWords(Named("limit", lex), limit, lex), ClauseWords(Named("offset", lex), offset, lex);
    var o1 := Clause(o, " where ", where);
    var o2 := Clause(o1, " limit ", limit);
    ClauseReads(lex, o, ws, " where ", Named("where", lex), where);
    ClauseReads(lex, o1, ws + w1, " limit ", Named("limit", lex), limit);
    ClauseReads(lex, o2, ws + w1 + w2, " offset ", Named("offset", lex), offset);
    Regroup3(lex, Clause(o2, " offset ", offset), ws, w1, w2, w3, Stops);
  }

  lemma {:induction false} RowsRead(lex: Scanner, o: Out, ws: seq<Word>, rows: seq<ExprList>, i: nat, f: Follow)
    requires Standard(lex) && i <= |rows| && forall k :: 0 <= k < |rows| ==> FairList(rows[k], lex)
    requires Grown(lex, o, ws, f) && !f.Stops?
    ensures Grown(lex, RowsOut(o, rows, i), ws + RowsWords(rows, i, lex), Stops)
    decreases |rows| - i
  {
    if i == |rows| {
      Stay(lex, o, ws, f);
      Loosen(lex, o, ws + [], f, Stops);
    } else {
      var comma, w := i < |rows| - 1, ListWords(rows[i], Zero, [], lex);
      var end, we := if comma then ")," else ")", CLOSE + if comma then COMMA else [];
      MarksRead(lex);
      Grow(lex, o, ws, f, "(", OPEN, Any);
      ListReads(lex, Add(o, "("), ws + OPEN, rows[i], Zero, "", []);
      RowEndReads(lex, comma);
      var o1 := ListOut(Add(o, "("), rows[i], Zero);
      Grow(lex, o1, ws + OPEN + w, Stops, end, we, Any);
      var w1 := OPEN + w + we;
      Regroup3(lex, Add(o1, end), ws, OPEN, w, we, Any);
      RowsRead(lex, Add(o1, end), ws + w1, rows, i + 1, Any);
      Regroup(lex, RowsOut(o, rows, i), ws, w1, RowsWords(rows, i + 1, lex), Stops);
      assert OPEN + w + we == OPEN + w + CLOSE + (if comma then COMMA else []);
    }
  }

  lemma RowEndReads(lex: Scanner, comma: bool)
    requires Standard(lex)
    ensures Reads(lex, if comma then ")," else ")", CLOSE + if comma then COMMA else [], Any)
  {
    MarksRead(lex);
    if comma {
      Join(lex, ")", CLOSE, Any, ",", COMMA, Any);
      assert ")" + "," == "),";
    } else {
      assert CLOSE + [] == CLOSE;
    }
  }

  lemma IntoReads(lex: Scanner, replace: bool)
    requires Standard(lex)
    ensures Reads(lex, if replace then "replace into " else "insert into ",
                  Named(if replace then "replace" else "insert", lex) + Named("into", lex), Any)
  {
    if replace {
      TwoPiece(lex, "replace", "into", "replace into ");
    } else {
      TwoPiece(lex, "insert", "into", "insert into ");
    }
  }

  ghost function ColumnsWords(l: IdList, lex: Scanner): seq<Word> {
    if l.NoIds? then [] else OPEN + IdsWords(l.names, 0, lex) + CLOSE
  }

  function ColumnsOut(o: Out, l: IdList): Out {
    if l.NoIds? then o else Add(IdListOut(Add(o, "("), l), ")")
  }

  /** The table of an insert and its columns, which stand right behind a bare name. */
  lemma TargetReads(lex: Scanner, o: Out, ws: seq<Word>, p: Insert)
    requires Standard(lex) && p.Insert? && FairInsert(p, lex) && Grown(lex, o, ws, Any)
    ensures Grown(lex, ColumnsOut(SrcOut(o, p.table), p.columns), ws + SrcWords(p.table, lex) + ColumnsWords(p.columns, lex), Stops)
  {
    var w1 := SrcWords(p.table, lex);
    var a := SrcOut(o, p.table);
    if p.columns.NoIds? {
      SrcReads(lex, o, ws, p.table);
      Stay(lex, a, ws + w1, Stops);
    } else {
      BareTableReads(lex, o, ws, p.table);
      MarksRead(lex);
      Grow(lex, a, ws + w1, Called, "(", OPEN, Any);
      var names, b := p.columns.names, Add(a, "(");
      if names == [] { Loosen(lex, b, ws + w1 + OPEN, Any, Stops); }
      IdsRead(lex, b, ws + w1 + OPEN, names, 0);
      var c := ColumnsOut(a, p.columns);
      Grow(lex, IdsOut(b, names, 0), ws + w1 + OPEN + IdsWords(names, 0, lex), Stops, ")", CLOSE, Any);
      Regroup3(lex, c, ws + w1, OPEN, IdsWords(names, 0, lex), CLOSE, Any);
      Loosen(lex, c, ws + w1 + ColumnsWords(p.columns, lex), Any, Stops);
    }
  }

  lemma BareTableReads(lex: Scanner, o: Out, ws: seq<Word>, l: SrcList)
    requires BareTable(l, lex) && Grown(lex, o, ws, Any)
    ensures Grown(lex, SrcOut(o, l), ws + SrcWords(l, lex), Called)
  {
    var name := l.items[0].name.text;
    TextReads(lex, o, ws, name, Called);
    BareTableWords(l, lex);
    BareTableText(o, l, lex);
  }

  lemma BareTableWords(l: SrcList, lex: Scanner)
    requires BareTable(l, lex)
    ensures SrcWords(l, lex) == Named(l.items[0].name.text, lex)
  {
    var x := l.items[0];
    assert SrcItemsWords(l, 1, false, lex) == [];
    assert SrcItemWords(x, false, [], lex) == Named(x.name.text, lex);
  }

  lemma BareTableText(o: Out, l: SrcList, lex: Scanner)
    requires BareTable(l, lex)
    ensures SrcOut(o, l) == Add(o, l.items[0].name.text)
  {
    var x := l.items[0];
    assert TableHead(x, false) == x.name.text;
    AddTwice(o, x.name.text, "");
    AddTwice(Add(o, x.name.text), "", "");
    assert x.name.text + "" == x.name.text;
    assert SrcItemOut(o, x, false, "") == Add(o, x.name.text);
    assert SrcItemsOut(Add(o, x.name.text), l, 1, false) == Add(o, x.name.text);
  }

  lemma InsertReads(lex: Scanner, o: Out, ws: seq<Word>, p: Insert, replace: bool)
    requires Standard(lex) && p.Insert? && FairInsert(p, lex) && Grown(lex, o, ws, Any)
    ensures Grown(lex, InsertOut(o, p, replace), ws + InsertWords(p, replace, lex), Stops)
  {
    var head := if replace then "replace into " else "insert into ";
    var w0 := Named(if replace then "replace" else "insert", lex) + Named("into", lex);
    var w1, w2 := SrcWords(p.table, lex), ColumnsWords(p.columns, lex);
    IntoReads(lex, replace);
    Grow(lex, o, ws, Any, head, w0, Any);
    TargetReads(lex, Add(o, head), ws + w0, p);
    var b := ColumnsOut(SrcOut(Add(o, head), p.table), p.columns);
    Regroup3(lex, b, ws, w0, w1, w2, Stops);
    SourceReads(lex, b, ws + (w0 + w1 + w2), p);
    var w3 := ListClauseWords(Named("set", lex), p.sets, Set, lex);
    Regroup4(lex, InsertOut(o, p, replace), ws, w0 + w1 + w2, w3, SelectWords(p.select, lex), ValuesWords(p.values, lex), Stops);
  }

  ghost function ValuesWords(l: ValuesList, lex: Scanner): seq<Word> {
    if l.NoValues? then [] else Named("values", lex) + RowsWords(l.rows, 0, lex)
  }

  /** What is inserted: assignments, a select or rows of values. */
  lemma SourceReads(lex: Scanner, o: Out, ws: seq<Word>, p: Insert)
    requires Standard(lex) && p.Insert? && FairInsert(p, lex) && Grown(lex, o, ws, Stops)
    ensures var c := ListClause(o, " set ", p.sets, Set);
            var d := if p.select.NoSelect? then c else SelectOut(Add(c, " "), p.select);
            Grown(lex, ValuesOut(d, p.values),
                  ws + ListClauseWords(Named("set", lex), p.sets, Set, lex) + SelectWords(p.select, lex) + ValuesWords(p.values, lex), Stops)
  {
    var w3 := ListClauseWords(Named("set", lex), p.sets, Set, lex);
    SpacedPiece(lex, "set", " set ");
    ListClauseReads(lex, o, ws, " set ", Named("set", lex), p.sets, Set);
    var c := ListClause(o, " set ", p.sets, Set);
    var w4 := SelectWords(p.select, lex);
    if p.select.Select? {
      assert Knows(lex, Blank);
      Grow(lex, c, ws + w3, Stops, " ", [], Any);
      assert ws + w3 + [] == ws + w3;
      SelectReads(lex, Add(c, " "), ws + w3, p.select);
    } else {
      Stay(lex, c, ws + w3, Stops);
    }
    var d := if p.select.NoSelect? then c else SelectOut(Add(c, " "), p.select);
    ValuesRead(lex, d, ws + w3 + w4, p.values);
  }

  lemma ValuesRead(lex: Scanner, o: Out, ws: seq<Word>, l: ValuesList)
    requires Standard(lex) && Grown(lex, o, ws, Stops)
    requires l.ValuesList? ==> forall k :: 0 <= k < |l.rows| ==> FairList(l.rows[k], lex)
    ensures Grown(lex, ValuesOut(o, l), ws + ValuesWords(l, lex), Stops)
  {
    if l.NoValues? {
      Stay(lex, o, ws, Stops);
    } else {
      EndPiece(lex, "values", " values");
      Grow(lex, o, ws, Stops, " values", Named("values", lex), Called);
      RowsRead(lex, Add(o, " values"), ws + Named("values", lex), l.rows, 0, Called);
      Regroup(lex, ValuesOut(o, l), ws, Named("values", lex), RowsWords(l.rows, 0, lex), Stops);
    }
  }

  lemma DeleteReads(lex: Scanner, o: Out, ws: seq<Word>, p: Delete)
    requires Standard(lex) && p.Delete? && Fair(DeleteSql(p), lex) && Grown(lex, o, ws, Any)
    ensures Grown(lex, DeleteOut(o, p), ws + StatementWords(DeleteSql(p), lex), Stops)
  {
    var w0, w1 := Named("delete", lex) + Named("from", lex), SrcWords(p.table, lex);
    TwoPiece(lex, "delete", "from", "delete from ");
    Grow(lex, o, ws, Any, "delete from ", w0, Any);
    SrcReads(lex, Add(o, "delete from "), ws + w0, p.table);
    EndReads(lex, SrcOut(Add(o, "delete from "), p.table), ws + w0 + w1, p.where, p.limit, p.offset);
    Regroup3(lex, DeleteOut(o, p), ws, w0, w1, EndWords(p.where, p.limit, p.offset, lex), Stops);
  }

  lemma UpdateReads(lex: Scanner, o: Out, ws: seq<Word>, p: Update)
    requires Standard(lex) && p.Update? && Fair(UpdateSql(p), lex) && Grown(lex, o, ws, Any)
    ensures Grown(lex, UpdateOut(o, p), ws + StatementWords(UpdateSql(p), lex), Stops)
  {
    var w0, w1 := Named("update", lex), SrcWords(p.table, lex);
    var w2 := ListClauseWords(Named("set", lex), p.changes, Set, lex);
    BeginPiece(lex, "update", "update ");
    Grow(lex, o, ws, Any, "update ", w0, Any);
    var a := SrcOut(Add(o, "update "), p.table);
    SrcReads(lex, Add(o, "update "), ws + w0, p.table);
    SpacedPiece(lex, "set", " set ");
    ListClauseReads(lex, a, ws + w0 + w1, " set ", Named("set", lex), p.changes, Set);
    EndReads(lex, ListClause(a, " set ", p.changes, Set), ws + w0 + w1 + w2, p.where, p.limit, p.offset);
    Regroup4(lex, UpdateOut(o, p), ws, w0, w1, w2, EndWords(p.where, p.limit, p.offset, lex), Stops);
  }

  lemma StatementReads(lex: Scanner, o: Out, ws: seq<Word>, s: Statement)
    requires Standard(lex) && Supported(s) && Fair(s, lex) && Grown(lex, o, ws, Any)
    ensures Grown(lex, StatementOut(o, s), ws + StatementWords(s, lex), Stops)
  {
    match s
    case SelectSql(p) => SelectReads(lex, o, ws, p);
    case InsertSql(p) => InsertReads(lex, o, ws, p, false);
    case ReplaceSql(p) => InsertReads(lex, o, ws, p, true);
    case DeleteSql(p) => DeleteReads(lex, o, ws, p);
    case UpdateSql(p) => UpdateReads(lex, o, ws, p);
  }

  /** A printed text is cut by the scanner into the words of what was printed. */
  lemma GrownIsRead(lex: Scanner, o: Out, ws: seq<Word>)
    requires T.Scans(lex) && Grown(lex, o, ws, Stops)
    ensures Words(o.sql, lex) == ws && Spelled(o.sql, T.NonSpace(T.Cut(o.sql, 0, lex))) == ws
  {
    assert ReadsBefore(lex, o.sql, ws, "");
    assert o.sql + "" == o.sql && ws + [] == ws && o.sql[0..] == o.sql;
    WordsAreTheTokens(o.sql, 0, lex);
  }

  lemma StartIsGrown(lex: Scanner)
    ensures Grown(lex, START, [], Any)
  {
    NothingReads(lex);
  }

  /** The wildcard text of a statement, cut into tokens as the parser loop does, is the
      statement's words in order, with a question mark for every literal. */
  lemma WildcardIsRead(s: Statement, kw: string -> T.Tok)
    requires Supported(s) && Fair(s, T.Lexer(kw)) && forall w :: !kw(w).Space?
    ensures var z := StatementOut(START, s).sql;
            && T.Scans(T.Lexer(kw))
            && Spelled(z, T.NonSpace(T.Cut(z, 0, T.Lexer(kw)))) == StatementWords(s, T.Lexer(kw))
  {
    var lex := T.Lexer(kw);
    T.LexerScans(kw);
    LexerIsStandard(kw);
    StartIsGrown(lex);
    StatementReads(lex, START, [], s);
    assert [] + StatementWords(s, lex) == StatementWords(s, lex);
    GrownIsRead(lex, StatementOut(START, s), StatementWords(s, lex));
  }

  /** The same for one expression. */
  lemma ExprIsRead(e: Expr, kw: string -> T.Tok)
    requires FairExpr(e, T.Lexer(kw)) && forall w :: !kw(w).Space?
    ensures Words(ExprOut(START, e).sql, T.Lexer(kw)) == ExprWords(e, T.Lexer(kw))
  {
    var lex := T.Lexer(kw);
    T.LexerScans(kw);
    LexerIsStandard(kw);
    StartIsGrown(lex);
    ExprReads(lex, START, [], e);
    assert [] + ExprWords(e, lex) == ExprWords(e, lex);
    if e.NoExpr? { Loosen(lex, ExprOut(START, e), ExprWords(e, lex), Any, Stops); }
    GrownIsRead(lex, ExprOut(START, e), ExprWords(e, lex));
  }

  // ----- where parts run together

  function Column(name: string): Expr {
    Expr(Id, name, Zero, NoExpr, NoExpr, NoSelect, NoList)
  }

  function Binary(op: Op, a: string, b: string): Expr {
    Expr(op, "", Zero, Column(a), Column(b), NoSelect, NoList)
  }

  lemma AddEmpty(o: Out)
    ensures Add(o, "") == o
  {
    assert o.sql + "" == o.sql;
  }

  lemma ColumnText(o: Out, a: string)
    requires a != ""
    ensures ExprOut(o, Column(a)) == Add(o, a)
  {
    assert "" + a == a;
    var t := TokenOut(o, Id, Zero, a);
    assert t == Add(o, a);
    AddEmpty(t);
  }

  lemma NodeWithoutSign(o: Out, op: Op, a: string, b: string)
    requires op.Other? && a != "" && b != ""
    ensures ExprOut(o, Binary(op, a, b)) == Add(o, a + b)
  {
    ColumnText(o, a);
    AddEmpty(Add(o, a));
    ColumnText(Add(o, a), b);
    AddTwice(o, a, b);
    AddEmpty(Add(o, a + b));
  }

  /** A node that prints no text of its own leaves its parts standing side by side. */
  lemma PartsWithoutSign(o: Out, e: Expr)
    requires e.Expr? && e.token == "" && !OperatorPrints(e.op) && !e.op.Function?
    ensures ExprOut(o, e) == ListOut(SubSelectOut(ExprOut(ExprOut(o, e.left), e.right), e.select, e.op), e.list, e.op)
  {
    AddEmpty(ExprOut(o, e.left));
    AddEmpty(ListOut(SubSelectOut(ExprOut(ExprOut(o, e.left), e.right), e.select, e.op), e.list, e.op));
  }

  /** A compound select other than a union is the first select and the second, with
      nothing between them. */
  lemma CompoundWithoutUnion(o: Out, s: Select)
    requires s.Select? && s.prior.Select? && !s.op.Union?
    ensures SelectOut(o, s) == SelectOut(SelectOut(o, s.prior), s.(prior := NoSelect))
  {
    var p, t := SelectOut(o, s.prior), s.(prior := NoSelect);
    AddEmpty(p);
    assert PriorOut(o, s) == p && PriorOut(p, t) == p;
    assert SelectHead(o, s) == SelectHead(p, t);
    assert SelectTail(SelectHead(p, t), s) == SelectTail(SelectHead(p, t), t);
  }

  function Like(word: string, x: Expr, y: Expr): Expr {
    Expr(LikeKw, word, Zero, NoExpr, NoExpr, NoSelect, ExprList([ExprItem(NoText, x, false), ExprItem(NoText, y, false)]))
  }

  /** Between the operands of a LIKE stands the word that is stored after the first one. */
  lemma LikePair(o: Out, word: string, x: Expr, y: Expr)
    requires word != ""
    ensures var a := ExprOut(o.(like := word), x);
            ExprOut(o, Like(word, x, y)) == ExprOut(Add(a, " " + a.like + " "), y)
  {
    var e, b := Like(word, x, y), o.(like := word);
    LikeItems(b, e.list);
    AddEmpty(b);
    assert TokenOut(o, LikeKw, Zero, word) == b;
    assert SubSelectOut(b, NoSelect, LikeKw) == b;
    AddEmpty(ListOut(b, e.list, LikeKw));
  }

  lemma LikeItems(o: Out, l: ExprList)
    requires l.ExprList? && |l.items| == 2 && l.items[0].name.NoText? && l.items[1].name.NoText?
    ensures var a := ExprOut(o, l.items[0].expr);
            ListOut(o, l, LikeKw) == ExprOut(Add(a, " " + a.like + " "), l.items[1].expr)
  {
    var a := ExprOut(o, l.items[0].expr);
    var c := Add(a, " " + a.like + " ");
    var d := ExprOut(c, l.items[1].expr);
    AddEmpty(o);
    AddEmpty(a);
    AddEmpty(c);
    AddEmpty(d);
    assert ItemOut(o, l.items[0], 0, false, LikeKw, false) == c;
    assert ItemOut(c, l.items[1], 1, true, Zero, false) == d;
    assert ItemsOut(d, l, 2, Zero, false) == d;
    assert ItemsOut(c, l, 1, Zero, false) == d;
  }

  /** So the word of a LIKE inside the first operand replaces that of the outer one. */
  lemma InnerLikeWins(o: Out, outer: string, inner: string, a: string, b: string, c: string)
    requires outer != "" && inner != "" && a != "" && b != "" && c != ""
    ensures ExprOut(o, Like(outer, Like(inner, Column(a), Column(b)), Column(c)))
            == Add(o.(like := inner), a + (" " + inner + " ") + b + (" " + inner + " ") + c)
  {
    var mid := " " + inner + " ";
    var p, q := o.(like := outer), o.(like := inner);
    LikePair(o, outer, Like(inner, Column(a), Column(b)), Column(c));
    LikePair(p, inner, Column(a), Column(b));
    ColumnText(q, a);
    AddTwice(q, a, mid);
    ColumnText(Add(q, a + mid), b);
    AddTwice(q, a + mid, b);
    AddTwice(q, a + mid + b, mid);
    ColumnText(Add(q, a + mid + b + mid), c);
    AddTwice(q, a + mid + b + mid, c);
  }

  lemma SumIsOneWord(op: Op, a: string, b: string, kw: string -> T.Tok)
    requires op.Other? && NameText(a) && NameText(b) && !kw(a + b).Space?
    ensures |Words(ExprOut(START, Binary(op, a, b)).sql, T.Lexer(kw))| == 1
  {
    NodeWithoutSign(START, op, a, b);
    OneWord(a + b, kw);
    assert START.sql + (a + b) == a + b;
  }

  lemma SumHasTwoWords(op: Op, a: string, b: string, lex: Scanner)
    requires op.Other? && a != "" && b != ""
    ensures |ExprWords(Binary(op, a, b), lex)| == 2
  {
    ColumnWords(a, lex);
    ColumnWords(b, lex);
  }

  lemma ColumnWords(a: string, lex: Scanner)
    requires a != ""
    ensures ExprWords(Column(a), lex) == Named(a, lex)
  {
    assert ListWords(NoList, Id, [], lex) == [] && SubSelectWords(NoSelect, Id, lex) == [];
  }

  lemma BinaryIsFair(op: Op, a: string, b: string, kw: string -> T.Tok)
    requires NameText(a) && NameText(b) && (IsSign(op) || op.And? || op.Or?) && !kw(a).Space? && !kw(b).Space?
    ensures FairExpr(Binary(op, a, b), T.Lexer(kw))
  {
    ColumnIsFair(a, kw);
    ColumnIsFair(b, kw);
  }

  /** Two columns under an operator are read as such if and only if the operator is one
      that is printed: of a sum or a product nothing is left but the two names in one. */
  lemma ColumnsReadIffPrinted(op: Op, a: string, b: string, kw: string -> T.Tok)
    requires NameText(a) && NameText(b) && (IsSign(op) || op.And? || op.Or? || op.Other?) && forall w :: !kw(w).Space?
    ensures Words(ExprOut(START, Binary(op, a, b)).sql, T.Lexer(kw)) == ExprWords(Binary(op, a, b), T.Lexer(kw))
            <==> !op.Other?
  {
    if op.Other? {
      SumIsOneWord(op, a, b, kw);
      SumHasTwoWords(op, a, b, T.Lexer(kw));
    } else {
      BinaryIsFair(op, a, b, kw);
      ExprIsRead(Binary(op, a, b), kw);
    }
  }

  lemma ColumnIsFair(a: string, kw: string -> T.Tok)
    requires NameText(a) && !kw(a).Space?
    ensures FairExpr(Column(a), T.Lexer(kw))
  {
    var lex := T.Lexer(kw);
    NamesAreSolid(a, kw);
    assert Solid(lex, a, Stops) by {
      forall r | Allowed(Stops, r) ensures CutsOff(lex, a, r) {
        assert Allowed(Called, r);
      }
    }
  }

  lemma OneWord(w: string, kw: string -> T.Tok)
    requires NameText(w) && !kw(w).Space?
    ensures |Words(w, T.Lexer(kw))| == 1
  {
    NamesAreSolid(w, kw);
    assert w[|w|..] == "";
    assert Words("", T.Lexer(kw)) == [];
  }
}
