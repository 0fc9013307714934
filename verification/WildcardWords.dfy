/** The printed text of a statement, read back by the scanner.

    `WildcardSql` puts a text together piece by piece.  Here the text is cut into words
    by the scanner of `Tokenizer`, and the words are those of the statement in order:
    left operand, operator, right operand; clause after clause.
 */
module WildcardWords {
  import opened WildcardSql
  import T = Tokenizer
  import TokenTable
  import Quoting

  type Scanner = string -> (T.Tok, nat)

  /** A token other than white space: its type and its text. */
  datatype Word = Word(kind: T.Tok, text: string)

  /** The words of a text. */
  ghost function Words(z: string, lex: Scanner): seq<Word>
    decreases |z|
  {
    var (t, n) := lex(z);
    if z == "" || n == 0 then []
    else if n > |z| then if t.Space? then [] else [Word(t, z)]
    else (if t.Space? then [] else [Word(t, z[..n])]) + Words(z[n..], lex)
  }

  function Lexeme(z: string, t: T.Token): Word {
    Word(t.kind, if t.start + t.n <= |z| then z[t.start..t.start + t.n] else if t.start <= |z| then z[t.start..] else "")
  }

  function Spelled(z: string, ts: seq<T.Token>): seq<Word> {
    if ts == [] then [] else [Lexeme(z, ts[0])] + Spelled(z, ts[1..])
  }

  /** The words of a text are the tokens that the parser loop stores, with their texts. */
  lemma {:induction false} WordsAreTheTokens(z: string, i: nat, lex: Scanner)
    requires i <= |z| && T.Scans(lex)
    ensures Words(z[i..], lex) == Spelled(z, T.NonSpace(T.Cut(z, i, lex)))
    decreases |z| - i
  {
    if i < |z| {
      T.CutStep(z, i, lex);
      WordsStep(z, i, lex);
      var t := T.TokenAt(z, i, lex);
      var rest := if i + t.n <= |z| then T.NonSpace(T.Cut(z, i + t.n, lex)) else [];
      if i + t.n <= |z| { WordsAreTheTokens(z, i + t.n, lex); }
      SpelledCons(z, t, rest);
      assert [] + rest == rest && [t] + [] == [t];
    }
  }

  lemma WordsStep(z: string, i: nat, lex: Scanner)
    requires i < |z| && T.TokenAt(z, i, lex).n >= 1
    ensures var t := T.TokenAt(z, i, lex);
            var mine := if t.kind.Space? then [] else [Lexeme(z, t)];
            Words(z[i..], lex) == if i + t.n <= |z| then mine + Words(z[i + t.n..], lex) else mine
  {
    var t := T.TokenAt(z, i, lex);
    if i + t.n <= |z| {
      assert z[i..][t.n..] == z[i + t.n..] && z[i..][..t.n] == z[i..i + t.n];
    }
  }

  lemma SpelledCons(z: string, t: T.Token, ts: seq<T.Token>)
    ensures Spelled(z, [t] + ts) == [Lexeme(z, t)] + Spelled(z, ts)
  {
    assert ([t] + ts)[1..] == ts;
  }

  // ----- texts that can be read word by word

  /** What may follow a text without changing its words: white space, a comma, a closing
      parenthesis or a dot; an opening parenthesis too; or nearly anything. */
  datatype Follow = Stops | Called | Any

  predicate Allows(f: Follow, c: char) {
    match f
    case Stops => c == ' ' || c == ',' || c == ')' || c == '.'
    case Called => c == ' ' || c == ',' || c == ')' || c == '.' || c == '('
    case Any => c != 11 as char && !T.IsDigit(c)
  }

  predicate Allowed(f: Follow, r: string) {
    r == "" || Allows(f, r[0])
  }

  predicate Covers(f: Follow, g: Follow) {
    f == g || f.Any? || g.Stops?
  }

  ghost predicate ReadsBefore(lex: Scanner, t: string, ws: seq<Word>, r: string) {
    Words(t + r, lex) == ws + Words(r, lex)
  }

  /** The text is read as `ws`, whatever allowed text follows. */
  ghost predicate Reads(lex: Scanner, t: string, ws: seq<Word>, f: Follow) {
    forall r {:trigger ReadsBefore(lex, t, ws, r)} :: Allowed(f, r) ==> ReadsBefore(lex, t, ws, r)
  }

  lemma Join(lex: Scanner, t: string, ws: seq<Word>, f: Follow, p: string, wp: seq<Word>, g: Follow)
    requires Reads(lex, t, ws, f) && Reads(lex, p, wp, g) && p != "" && Allows(f, p[0])
    ensures Reads(lex, t + p, ws + wp, g)
  {
    forall r | Allowed(g, r) ensures ReadsBefore(lex, t + p, ws + wp, r) {
      assert ReadsBefore(lex, p, wp, r);
      assert (p + r)[0] == p[0];
      assert ReadsBefore(lex, t, ws, p + r);
      assert t + p + r == t + (p + r);
      assert ws + wp + Words(r, lex) == ws + (wp + Words(r, lex));
    }
  }

  lemma Relax(lex: Scanner, t: string, ws: seq<Word>, f: Follow, g: Follow)
    requires Reads(lex, t, ws, f) && Covers(f, g)
    ensures Reads(lex, t, ws, g)
  {
    forall r | Allowed(g, r) ensures ReadsBefore(lex, t, ws, r) {
      assert Allowed(f, r);
    }
  }

  lemma NothingReads(lex: Scanner)
    ensures Reads(lex, "", [], Any)
  {
    forall r ensures ReadsBefore(lex, "", [], r) {
      assert "" + r == r;
    }
  }

  ghost predicate CutsOff(lex: Scanner, w: string, r: string) {
    lex(w + r) == (lex(w).0, |w|)
  }

  /** The text is one word, whatever allowed text follows. */
  ghost predicate Solid(lex: Scanner, w: string, f: Follow) {
    && w != "" && Allows(Any, w[0]) && !lex(w).0.Space?
    && forall r {:trigger CutsOff(lex, w, r)} :: Allowed(f, r) ==> CutsOff(lex, w, r)
  }

  /** The word that a text is by itself. */
  function One(w: string, lex: Scanner): Word {
    Word(lex(w).0, w)
  }

  lemma SolidReads(lex: Scanner, w: string, f: Follow)
    requires Solid(lex, w, f)
    ensures Reads(lex, w, [One(w, lex)], f)
  {
    forall r | Allowed(f, r) ensures ReadsBefore(lex, w, [One(w, lex)], r) {
      assert CutsOff(lex, w, r);
      assert (w + r)[..|w|] == w && (w + r)[|w|..] == r;
    }
  }

  // ----- what is used of the scanner

  ghost predicate Letters(w: string) {
    w != "" && forall i :: 0 <= i < |w| ==> 'a' <= w[i] <= 'z'
  }

  /** The operators that are signs: token type and text. */
  function SignOf(op: Op): (T.Tok, string) {
    match op
    case Eq => (T.Eq, "=")
    case Ne => (T.Ne, "!=")
    case Gt => (T.Gt, ">")
    case Le => (T.Le, "<=")
    case Lt => (T.Lt, "<")
    case Ge => (T.Ge, ">=")
    case BitAnd => (T.BitAnd, "&")
    case BitOr => (T.BitOr, "|")
    case BitNot => (T.BitNot, "~")
    case LShift => (T.LShift, "<<")
    case RShift => (T.RShift, ">>")
    case _ => (T.Illegal, "")
  }

  predicate IsSign(op: Op) {
    || op.Eq? || op.Ne? || op.Gt? || op.Le? || op.Lt? || op.Ge? || op.BitAnd? || op.BitOr? || op.BitNot?
    || op.LShift? || op.RShift?
  }

  /** What is used of the scanner, one fact at a time. */
  datatype Fact = Blank | Letter(w: string) | SignFact(op: Op) | OpenMark | CloseMark | CommaMark | DotMark | StarMark | QuestionMark

  ghost predicate KnowsSign(lex: Scanner, w: string, t: T.Tok, f: Follow) {
    Solid(lex, w, f) && lex(w).0 == t
  }

  ghost predicate Knows(lex: Scanner, k: Fact) {
    match k
    case Blank => Reads(lex, " ", [], Any)
    case Letter(w) => Letters(w) ==> Solid(lex, w, Called)
    case SignFact(op) => IsSign(op) ==> KnowsSign(lex, SignOf(op).1, SignOf(op).0, Stops)
    case OpenMark => KnowsSign(lex, "(", T.LP, Any)
    case CloseMark => KnowsSign(lex, ")", T.RP, Any)
    case CommaMark => KnowsSign(lex, ",", T.Comma, Any)
    case DotMark => KnowsSign(lex, ".", T.Dot, Any)
    case StarMark => KnowsSign(lex, "*", T.Star, Any)
    case QuestionMark => KnowsSign(lex, "?", T.Variable, Called)
  }

  ghost predicate Standard(lex: Scanner) {
    forall k {:trigger Knows(lex, k)} :: Knows(lex, k)
  }

  /** Texts that the scanner takes for names or keywords. */
  ghost predicate NameText(w: string) {
    w != "" && !T.IsDigit(w[0]) && w[0] != '$' && forall i :: 0 <= i < |w| ==> T.IdChar(w[i])
  }

  lemma NameWord(w: string, r: string, kw: string -> T.Tok)
    requires NameText(w) && Allowed(Called, r)
    ensures T.Lex(w + r, kw) == (kw(w), |w|)
  {
    var z := w + r;
    assert z[..|w|] == w && z[0] == w[0];
    assert |w| < |z| ==> z[|w|] == r[0];
    assert |w| > 1 ==> z[1] == w[1];
    TokenTable.NameIsAStretch(z, |w|, kw);
  }

  /** A name is one word. */
  lemma NamesAreSolid(w: string, kw: string -> T.Tok)
    requires NameText(w) && !kw(w).Space?
    ensures Solid(T.Lexer(kw), w, Called) && T.Lexer(kw)(w) == (kw(w), |w|)
  {
    var lex := T.Lexer(kw);
    NameWord(w, "", kw);
    assert w + "" == w;
    forall r | Allowed(Called, r) ensures CutsOff(lex, w, r) {
      NameWord(w, r, kw);
    }
  }

  /** A text in quotes is one word. */
  lemma QuotedIsSolid(s: string, q: char, kw: string -> T.Tok)
    requires q == '\'' || q == '"'
    ensures Solid(T.Lexer(kw), Quoting.Quoted(s, q), Called)
  {
    var lex, w := T.Lexer(kw), Quoting.Quoted(s, q);
    Quoting.QuotedIsOneToken(s, q, "", kw);
    assert w + "" == w;
    forall r | Allowed(Called, r) ensures CutsOff(lex, w, r) {
      Quoting.QuotedIsOneToken(s, q, r, kw);
    }
  }

  lemma OperatorKnown(w: string, t: T.Tok, f: Follow, kw: string -> T.Tok)
    requires |w| == 1 || |w| == 2
    requires TokenTable.OperatorChar(w[0]) && f != Called
    requires |w| == 2 ==> T.Operator(w[0], w[1]) == (t, 2)
    requires |w| == 1 ==> forall c {:trigger T.Operator(w[0], c)} :: Allows(f, c) || c == T.NUL ==> T.Operator(w[0], c) == (t, 1)
    requires w[0] != '/' && w[0] != '-' && (w[0] == '.' ==> f.Any?) && t != T.Space
    ensures KnowsSign(T.Lexer(kw), w, t, f)
  {
    var lex := T.Lexer(kw);
    forall r | Allowed(f, r) ensures lex(w + r) == (t, |w|) {
      var z := w + r;
      assert z[0] == w[0] && (|w| == 2 ==> z[1] == w[1]) && (|w| == 1 && |z| > 1 ==> z[1] == r[0]);
      TokenTable.LexIsOperator(z, kw);
    }
    assert w + "" == w;
  }

  lemma VariableMarkKnown(kw: string -> T.Tok)
    ensures KnowsSign(T.Lexer(kw), "?", T.Variable, Called)
  {
    var lex := T.Lexer(kw);
    forall r | Allowed(Called, r) ensures lex("?" + r) == (T.Variable, 1) {
      TokenTable.NumberedVariable("?" + r, 1, kw);
    }
    assert "?" + "" == "?";
  }

  lemma {:induction false} SkipShifts(r: string, i: nat, p: char -> bool)
    requires i <= |r|
    ensures T.Skip(" " + r, i + 1, p) == T.Skip(r, i, p) + 1
    decreases |r| - i
  {
    if i < |r| && p(r[i]) { SkipShifts(r, i + 1, p); }
  }

  lemma SpaceKnown(kw: string -> T.Tok)
    ensures Reads(T.Lexer(kw), " ", [], Any)
  {
    var lex := T.Lexer(kw);
    forall r | Allowed(Any, r) ensures ReadsBefore(lex, " ", [], r) {
      var z := " " + r;
      SkipShifts(r, 0, T.IsSpace);
      var n := T.Skip(r, 0, T.IsSpace);
      assert lex(z) == (T.Space, n + 1);
      assert z[n + 1..] == r[n..];
      if n == 0 {
        assert r[0..] == r;
      } else {
        assert lex(r) == (T.Space, n);
      }
    }
  }

  /** After a sign comes a stop, which no sign of two characters has in second place. */
  lemma SignAlone(op: Op, c: char)
    requires IsSign(op) && (Allows(Stops, c) || c == T.NUL)
    ensures var (t, w) := SignOf(op);
            && (|w| == 1 || |w| == 2) && TokenTable.OperatorChar(w[0]) && w[0] != '/' && w[0] != '-' && w[0] != '.'
            && t != T.Space && T.Operator(w[0], if |w| == 2 then w[1] else c) == (t, |w|)
  {}

  lemma SignKnown(op: Op, kw: string -> T.Tok)
    requires IsSign(op)
    ensures KnowsSign(T.Lexer(kw), SignOf(op).1, SignOf(op).0, Stops)
  {
    var (t, w) := SignOf(op);
    SignAlone(op, ' ');
    forall c | Allows(Stops, c) || c == T.NUL ensures T.Operator(w[0], if |w| == 2 then w[1] else c) == (t, |w|) {
      SignAlone(op, c);
    }
    OperatorKnown(w, t, Stops, kw);
  }

  lemma MarkKnown(k: Fact, kw: string -> T.Tok)
    requires k.OpenMark? || k.CloseMark? || k.CommaMark? || k.DotMark? || k.StarMark?
    ensures Knows(T.Lexer(kw), k)
  {
    match k
    case OpenMark => OperatorKnown("(", T.LP, Any, kw);
    case CloseMark => OperatorKnown(")", T.RP, Any, kw);
    case CommaMark => OperatorKnown(",", T.Comma, Any, kw);
    case DotMark => OperatorKnown(".", T.Dot, Any, kw);
    case StarMark => OperatorKnown("*", T.Star, Any, kw);
  }

  /** The scanner is one, if its keyword table makes no word white space. */
  lemma LexerIsStandard(kw: string -> T.Tok)
    requires forall w :: !kw(w).Space?
    ensures Standard(T.Lexer(kw))
  {
    forall k ensures Knows(T.Lexer(kw), k) {
      match k
      case Blank => SpaceKnown(kw);
      case Letter(w) => if Letters(w) { NamesAreSolid(w, kw); }
      case SignFact(op) => if IsSign(op) { SignKnown(op, kw); }
      case QuestionMark => VariableMarkKnown(kw);
      case _ => MarkKnown(k, kw);
    }
  }

  // ----- the words of a statement

  function Sign(t: T.Tok, w: string): seq<Word> {
    [Word(t, w)]
  }

  const OPEN := Sign(T.LP, "(")
  const CLOSE := Sign(T.RP, ")")
  const COMMA := Sign(T.Comma, ",")

  function Named(w: string, lex: Scanner): seq<Word> {
    [One(w, lex)]
  }

  function NotIf(parent: Op, lex: Scanner): seq<Word> {
    if parent.Not? then Named("not", lex) else []
  }

  /** The word of an operator, with the type the scanner gives it. */
  function OperatorWords(op: Op, parent: Op, lex: Scanner): seq<Word> {
    if IsSign(op) then Sign(SignOf(op).0, SignOf(op).1)
    else match op
    case And => Named("and", lex)
    case Or => Named("or", lex)
    case Between => Named("between", lex)
    case In => NotIf(parent, lex) + (Named("in", lex) + OPEN)
    case Exists => NotIf(parent, lex) + (Named("exists", lex) + OPEN)
    case All => Sign(T.Star, "*")
    case Dot => Sign(T.Dot, ".")
    case _ => []
  }

  /** A node's own words: a literal is a question mark, whatever its text. */
  function NodeWords(e: Expr, lex: Scanner): seq<Word>
    requires e.Expr?
  {
    if e.token == "" then OperatorWords(e.op, e.parent, lex)
    else if IsLiteral(e.op) then Sign(T.Variable, "?")
    else if e.op.LikeKw? then []
    else if e.op.Function? then Named(e.token, lex) + OPEN
    else (if e.op.Id? && e.parent.Case? then Named("case", lex) else []) + Named(e.token, lex)
  }

  function LikeWords(e: Expr, lex: Scanner): seq<Word>
    requires e.Expr?
  {
    if e.op.LikeKw? then NotIf(e.parent, lex) + Named(e.token, lex) else []
  }

  /** Parentheses go round a conjunction or disjunction that is the right operand of one. */
  function OpenWords(e: Expr): seq<Word>
    requires e.Expr?
  {
    if IsLogic(e) && IsLogic(e.right) then OPEN else []
  }

  function CloseWords(e: Expr): seq<Word>
    requires e.Expr?
  {
    if e.op.Function? && e.left.NoExpr? && e.right.NoExpr? && e.list.NoList? then Sign(T.Star, "*") + CLOSE
    else if e.op.In? || e.op.Exists? || e.op.Function? || (IsLogic(e) && IsLogic(e.right)) then CLOSE
    else []
  }

  /** Left operand, node, right operand, sub-select, list. */
  ghost function ExprWords(e: Expr, lex: Scanner): seq<Word>
    decreases e, 0
  {
    if e.NoExpr? then []
    else
      ExprWords(e.left, lex) + NodeWords(e, lex) + OpenWords(e) + ExprWords(e.right, lex)
      + SubSelectWords(e.select, e.op, lex) + ListWords(e.list, e.op, LikeWords(e, lex), lex) + CloseWords(e)
  }

  ghost function SubSelectWords(s: Select, op: Op, lex: Scanner): seq<Word>
    decreases s, 2
  {
    if s.NoSelect? then [] else if op.In? then SelectWords(s, lex) else OPEN + SelectWords(s, lex) + CLOSE
  }

  ghost function ListWords(l: ExprList, op: Op, like: seq<Word>, lex: Scanner): seq<Word>
    decreases l, Size(l) + 1
  {
    if l.NoList? then [] else ItemsWords(l, 0, op, like, lex)
  }

  /** What stands before, and after, the expression of item `i` of `n`. */
  function BeforeWords(x: ExprItem, i: nat, op: Op, lex: Scanner): seq<Word> {
    if op.Set? && x.name.Text? then Named(x.name.text, lex) + Sign(T.Eq, "=")
    else if op.Case? then Named(if i % 2 == 0 then "when" else "then", lex)
    else []
  }

  function NameWords(x: ExprItem, op: Op, lex: Scanner): seq<Word> {
    if op.Set? || x.name.NoText? then []
    else Named(if x.expr.Expr? && x.expr.op.Case? then "end" else "as", lex) + Named(x.name.text, lex)
  }

  function SeparatorWords(x: ExprItem, i: nat, n: nat, op: Op, like: seq<Word>, lex: Scanner): seq<Word> {
    (if op.Order? && x.desc then Named("desc", lex) else [])
    + (if i == n - 1 || op.Case? then []
       else if op.Between? then Named("and", lex)
       else if op.LikeKw? then if i == 0 then like else Named("escape", lex)
       else COMMA)
  }

  ghost function ItemWords(x: ExprItem, i: nat, n: nat, op: Op, like: seq<Word>, lex: Scanner): seq<Word>
    decreases x, 0
  {
    BeforeWords(x, i, op, lex) + ExprWords(x.expr, lex) + NameWords(x, op, lex) + SeparatorWords(x, i, n, op, like, lex)
  }

  ghost function ItemsWords(l: ExprList, i: nat, op: Op, like: seq<Word>, lex: Scanner): seq<Word>
    requires l.ExprList? && i <= |l.items|
    decreases l, |l.items| - i
  {
    if i == |l.items| then []
    else ItemWords(l.items[i], i, |l.items|, op, like, lex) + ItemsWords(l, i + 1, op, like, lex)
  }

  ghost function ClauseWords(head: seq<Word>, e: Expr, lex: Scanner): seq<Word>
    decreases e, 1
  {
    if e.NoExpr? then [] else head + ExprWords(e, lex)
  }

  ghost function ListClauseWords(head: seq<Word>, l: ExprList, op: Op, lex: Scanner): seq<Word>
    decreases l, Size(l) + 2
  {
    if l.NoList? then [] else head + ListWords(l, op, [], lex)
  }

  /** The clauses of a select in order; HAVING comes after ORDER BY. */
  ghost function SelectWords(s: Select, lex: Scanner): seq<Word>
    decreases s, 1
  {
    if s.NoSelect? then [] else SelectHeadWords(s, lex) + SelectTailWords(s, lex)
  }

  ghost function SelectHeadWords(s: Select, lex: Scanner): seq<Word>
    requires s.Select?
    decreases s, 0
  {
    (if s.prior.Select? then SelectWords(s.prior, lex) + Named("union", lex) else [])
    + Named("select", lex) + (if s.distinct then Named("distinct", lex) else [])
    + ListWords(s.columns, Zero, [], lex)
    + (if s.src.NoSrc? || s.src.items == [] then [] else Named("from", lex) + SrcWords(s.src, lex))
  }

  ghost function SelectTailWords(s: Select, lex: Scanner): seq<Word>
    requires s.Select?
    decreases s, 0
  {
    ClauseWords(Named("where", lex), s.where, lex)
    + ListClauseWords(Named("group", lex) + Named("by", lex), s.groupBy, Zero, lex)
    + ListClauseWords(Named("order", lex) + Named("by", lex), s.orderBy, Order, lex)
    + ClauseWords(Named("having", lex), s.having, lex)
    + ClauseWords(Named("limit", lex), s.limit, lex)
    + ClauseWords(Named("offset", lex), s.offset, lex)
  }

  ghost function IdsWords(names: seq<string>, i: nat, lex: Scanner): seq<Word>
    requires i <= |names|
    decreases |names| - i
  {
    if i == |names| then []
    else Named(names[i], lex) + (if i < |names| - 1 then COMMA else []) + IdsWords(names, i + 1, lex)
  }

  function If(b: bool, w: string, lex: Scanner): seq<Word> {
    if b then Named(w, lex) else []
  }

  function JoinKinds(j: bv8, lex: Scanner): seq<Word> {
    If(j & 0x08 != 0, "left", lex) + If(j & 0x10 != 0, "right", lex) + If(j & 0x80 != 0, "full", lex)
    + If(j & 0x04 != 0, "natural", lex) + If(j & 0x20 != 0, "outer", lex) + Named("join", lex)
  }

  /** After a table a comma, or the kind of join and the name of the table that is joined. */
  function AfterWords(items: seq<SrcItem>, i: nat, lex: Scanner): seq<Word>
    requires i < |items|
  {
    if Joins(items[i]) then
      JoinKinds(items[i].join, lex)
      + (if i < |items| - 1 && items[i + 1].name.Text? then Named(items[i + 1].name.text, lex) else [])
    else if i < |items| - 1 then COMMA
    else []
  }

  function TableWords(x: SrcItem, named: bool, lex: Scanner): seq<Word> {
    (if x.database.Text? then Named(x.database.text, lex) + Sign(T.Dot, ".") else [])
    + (if !named && x.name.Text? then Named(x.name.text, lex) else [])
  }

  function AliasWords(x: SrcItem, lex: Scanner): seq<Word> {
    if x.alias.Text? then Named("as", lex) + Named(x.alias.text, lex) else []
  }

  ghost function UsingWords(l: IdList, lex: Scanner): seq<Word> {
    if l.NoIds? then [] else Named("using", lex) + OPEN + IdsWords(l.names, 0, lex) + CLOSE
  }

  ghost function OnWords(e: Expr, lex: Scanner): seq<Word>
    decreases e, 1
  {
    if e.NoExpr? then [] else Named("on", lex) + OPEN + ExprWords(e, lex) + CLOSE
  }

  ghost function TableSelectWords(s: Select, lex: Scanner): seq<Word>
    decreases s, 2
  {
    if s.NoSelect? then [] else OPEN + SelectWords(s, lex) + CLOSE
  }

  ghost function SrcItemWords(x: SrcItem, named: bool, after: seq<Word>, lex: Scanner): seq<Word>
    decreases x, 0
  {
    TableWords(x, named, lex) + TableSelectWords(x.select, lex) + AliasWords(x, lex) + after
    + UsingWords(x.using, lex) + OnWords(x.on, lex)
  }

  ghost function SrcItemsWords(l: SrcList, i: nat, named: bool, lex: Scanner): seq<Word>
    requires l.SrcList? && i <= |l.items|
    decreases l, |l.items| - i
  {
    if i == |l.items| then []
    else SrcItemWords(l.items[i], named, AfterWords(l.items, i, lex), lex) + SrcItemsWords(l, i + 1, NamesNext(l.items, i), lex)
  }

  ghost function SrcWords(l: SrcList, lex: Scanner): seq<Word>
    decreases l, SrcSize(l) + 1
  {
    if l.NoSrc? then [] else SrcItemsWords(l, 0, false, lex)
  }

  ghost function RowsWords(rows: seq<ExprList>, i: nat, lex: Scanner): seq<Word>
    requires i <= |rows|
    decreases |rows| - i
  {
    if i == |rows| then []
    else OPEN + ListWords(rows[i], Zero, [], lex) + CLOSE + (if i < |rows| - 1 then COMMA else []) + RowsWords(rows, i + 1, lex)
  }

  ghost function InsertWords(p: Insert, replace: bool, lex: Scanner): seq<Word> {
    if p.NoInsert? then []
    else
      Named(if replace then "replace" else "insert", lex) + Named("into", lex) + SrcWords(p.table, lex)
      + (if p.columns.NoIds? then [] else OPEN + IdsWords(p.columns.names, 0, lex) + CLOSE)
      + ListClauseWords(Named("set", lex), p.sets, Set, lex)
      + SelectWords(p.select, lex)
      + (if p.values.NoValues? then [] else Named("values", lex) + RowsWords(p.values.rows, 0, lex))
  }

  ghost function EndWords(where: Expr, limit: Expr, offset: Expr, lex: Scanner): seq<Word> {
    ClauseWords(Named("where", lex), where, lex) + ClauseWords(Named("limit", lex), limit, lex)
    + ClauseWords(Named("offset", lex), offset, lex)
  }

  ghost function StatementWords(s: Statement, lex: Scanner): seq<Word> {
    match s
    case SelectSql(p) => SelectWords(p, lex)
    case InsertSql(p) => InsertWords(p, false, lex)
    case ReplaceSql(p) => InsertWords(p, true, lex)
    case DeleteSql(p) =>
      if p.NoDelete? then []
      else Named("delete", lex) + Named("from", lex) + SrcWords(p.table, lex) + EndWords(p.where, p.limit, p.offset, lex)
    case UpdateSql(p) =>
      if p.NoUpdate? then []
      else
        Named("update", lex) + SrcWords(p.table, lex) + ListClauseWords(Named("set", lex), p.changes, Set, lex)
        + EndWords(p.where, p.limit, p.offset, lex)
    case UnknownSql => []
  }

  // ----- statements whose printed parts are kept apart

  /** What may follow the node's own text. */
  function AfterNode(e: Expr): Follow
    requires e.Expr?
  {
    if e.token == "" && OperatorPrints(e.op) then Any
    else if e.token == "" || e.op.LikeKw? then if e.left.NoExpr? then Any else Stops
    else if e.op.Function? then Any
    else Stops
  }

  predicate OperatorPrints(op: Op) {
    || op.In? || op.All? || op.Dot? || op.Eq? || op.Ne? || op.Gt? || op.Le? || op.Lt? || op.Ge? || op.And? || op.Or?
    || op.BitAnd? || op.BitOr? || op.BitNot? || op.LShift? || op.RShift? || op.Between? || op.Exists?
  }

  predicate HasItems(l: ExprList) {
    l.ExprList? && l.items != []
  }

  /** The text of a node is one word, and no two parts of a node touch: a node that prints
      nothing itself has one part, a node with a text of its own has no operands. */
  ghost predicate Apart(e: Expr, lex: Scanner)
    requires e.Expr?
  {
    && (e.token != "" && !IsLiteral(e.op) ==> Solid(lex, e.token, if e.op.Function? then Called else Stops))
    && (e.left.Expr? ==> (e.token == "" && !e.op.All?) || e.op.LikeKw?)
    && (e.right.Expr? ==> AfterNode(e).Any?)
    && (e.select.Select? ==> AfterNode(e).Any? && e.right.NoExpr? && !e.op.Function?)
    && (HasItems(e.list) ==> e.op.Case? || (AfterNode(e).Any? && e.right.NoExpr? && e.select.NoSelect?))
    && (HasItems(e.list) && e.op.LikeKw? ==> e.token != "" && NoLike(e.list.items[0].expr))
  }

  /** No other LIKE is printed inside, whose word would replace that of the outer one. */
  ghost predicate NoLike(e: Expr)
    decreases e
  {
    e.Expr? ==>
      && !e.op.LikeKw? && NoLike(e.left) && NoLike(e.right) && e.select.NoSelect?
      && (e.list.ExprList? ==> forall i :: 0 <= i < |e.list.items| ==> NoLike(e.list.items[i].expr))
  }

  ghost predicate FairExpr(e: Expr, lex: Scanner)
    decreases e
  {
    e.Expr? ==>
      Apart(e, lex) && FairExpr(e.left, lex) && FairExpr(e.right, lex) && FairSelect(e.select, lex) && FairList(e.list, lex)
  }

  ghost predicate FairText(t: Text, lex: Scanner) {
    t.Text? ==> Solid(lex, t.text, Stops)
  }

  ghost predicate FairItem(x: ExprItem, lex: Scanner)
    decreases x
  {
    FairText(x.name, lex) && FairExpr(x.expr, lex)
  }

  ghost predicate FairList(l: ExprList, lex: Scanner)
    decreases l
  {
    l.ExprList? ==> forall i :: 0 <= i < |l.items| ==> FairItem(l.items[i], lex)
  }

  /** Of the compound operators only UNION prints anything. */
  ghost predicate FairSelect(s: Select, lex: Scanner)
    decreases s
  {
    s.Select? ==>
      && (s.prior.Select? ==> s.op.Union?) && FairSelect(s.prior, lex)
      && FairList(s.columns, lex) && FairSrc(s.src, lex) && FairExpr(s.where, lex) && FairList(s.groupBy, lex)
      && FairList(s.orderBy, lex) && FairExpr(s.having, lex) && FairExpr(s.limit, lex) && FairExpr(s.offset, lex)
  }

  ghost predicate FairIds(l: IdList, lex: Scanner) {
    l.IdList? ==> forall i :: 0 <= i < |l.names| ==> Solid(lex, l.names[i], Stops)
  }

  ghost predicate FairSrcItem(x: SrcItem, lex: Scanner)
    decreases x
  {
    && FairText(x.database, lex) && FairText(x.name, lex) && FairText(x.alias, lex)
    && FairSelect(x.select, lex) && FairIds(x.using, lex) && FairExpr(x.on, lex)
  }

  ghost predicate FairSrc(l: SrcList, lex: Scanner)
    decreases l
  {
    l.SrcList? ==> forall i :: 0 <= i < |l.items| ==> FairSrcItem(l.items[i], lex)
  }

  /** A bare table name, which a list of columns in parentheses may follow. */
  ghost predicate BareTable(l: SrcList, lex: Scanner) {
    && l.SrcList? && |l.items| == 1
    && var x := l.items[0];
    && x.database.NoText? && x.name.Text? && Solid(lex, x.name.text, Called)
    && x.select.NoSelect? && x.alias.NoText? && x.using.NoIds? && x.on.NoExpr?
  }

  ghost predicate FairInsert(p: Insert, lex: Scanner) {
    p.Insert? ==>
      && FairSrc(p.table, lex) && FairIds(p.columns, lex) && (p.columns.IdList? ==> BareTable(p.table, lex))
      && FairList(p.sets, lex) && FairSelect(p.select, lex)
      && (p.values.ValuesList? ==> forall i :: 0 <= i < |p.values.rows| ==> FairList(p.values.rows[i], lex))
  }

  ghost predicate Fair(s: Statement, lex: Scanner) {
    match s
    case SelectSql(p) => FairSelect(p, lex)
    case InsertSql(p) => FairInsert(p, lex)
    case ReplaceSql(p) => FairInsert(p, lex)
    case DeleteSql(p) =>
      p.Delete? ==> FairSrc(p.table, lex) && FairExpr(p.where, lex) && FairExpr(p.limit, lex) && FairExpr(p.offset, lex)
    case UpdateSql(p) =>
      p.Update? ==>
        && FairSrc(p.table, lex) && FairList(p.changes, lex)
        && FairExpr(p.where, lex) && FairExpr(p.limit, lex) && FairExpr(p.offset, lex)
    case UnknownSql => true
  }

  // ----- fixed pieces

  lemma WordReads(lex: Scanner, w: string)
    requires Standard(lex) && Letters(w)
    ensures Reads(lex, w, Named(w, lex), Called)
  {
    assert Knows(lex, Letter(w));
    SolidReads(lex, w, Called);
  }

  lemma SignReads(lex: Scanner, w: string, t: T.Tok, f: Follow)
    requires KnowsSign(lex, w, t, f)
    ensures Reads(lex, w, Sign(t, w), f)
  {
    SolidReads(lex, w, f);
  }

  /** A space before or after a text changes nothing. */
  lemma SpaceBefore(lex: Scanner, w: string, ws: seq<Word>, f: Follow)
    requires Knows(lex, Blank) && w != "" && Allows(Any, w[0]) && Reads(lex, w, ws, f)
    ensures Reads(lex, " " + w, ws, f)
  {
    Join(lex, " ", [], Any, w, ws, f);
    assert [] + ws == ws;
  }

  lemma SpaceAfter(lex: Scanner, w: string, ws: seq<Word>, f: Follow)
    requires Knows(lex, Blank) && Reads(lex, w, ws, f)
    ensures Reads(lex, w + " ", ws, Any)
  {
    Join(lex, w, ws, f, " ", [], Any);
    assert ws + [] == ws;
  }

  /** A word between spaces, and with one of them. */
  lemma SpacedWord(lex: Scanner, w: string)
    requires Standard(lex) && Letters(w)
    ensures Reads(lex, " " + w + " ", Named(w, lex), Any)
    ensures Reads(lex, w + " ", Named(w, lex), Any) && Reads(lex, " " + w, Named(w, lex), Called)
  {
    assert Knows(lex, Blank);
    WordReads(lex, w);
    SpaceAfter(lex, w, Named(w, lex), Called);
    SpaceBefore(lex, w, Named(w, lex), Called);
    SpaceAfter(lex, " " + w, Named(w, lex), Called);
  }

  lemma SpacedSign(lex: Scanner, w: string, t: T.Tok, f: Follow)
    requires Knows(lex, Blank) && KnowsSign(lex, w, t, f)
    ensures Reads(lex, " " + w + " ", Sign(t, w), Any)
  {
    SignReads(lex, w, t, f);
    SpaceBefore(lex, w, Sign(t, w), f);
    SpaceAfter(lex, " " + w, Sign(t, w), f);
  }

  /** A word and an opening parenthesis. */
  lemma WordOpens(lex: Scanner, w: string)
    requires Standard(lex) && Letters(w)
    ensures Reads(lex, " " + w + "(", Named(w, lex) + OPEN, Any)
    ensures Reads(lex, " " + w + " " + "(", Named(w, lex) + OPEN, Any)
  {
    SpacedWord(lex, w);
    assert Knows(lex, OpenMark);
    SignReads(lex, "(", T.LP, Any);
    Join(lex, " " + w, Named(w, lex), Called, "(", OPEN, Any);
    Join(lex, " " + w + " ", Named(w, lex), Any, "(", OPEN, Any);
  }
}
