/** What the flags of a printed statement say about the statement.

    `WildcardSql` prints a statement and updates three notes on the way: whether there
    was a literal, whether there was a variable, and how many `*` columns there were.
    Here these notes are tied to a count over the statement that knows nothing of
    printing.
 */
module WildcardFlags {
  import opened WildcardSql

  /** Whether a statement has a literal, whether it has a variable, and how many `*` columns. */
  datatype Tally = Tally(literal: bool, variable: bool, stars: nat)

  const NOTHING := Tally(false, false, 0)

  function Plus(a: Tally, b: Tally): Tally {
    Tally(a.literal || b.literal, a.variable || b.variable, a.stars + b.stars)
  }

  function NodeTally(op: Op, text: string): Tally {
    Tally(IsLiteral(op) && text != "", op.Variable? && text != "", if op.All? && text == "" then 1 else 0)
  }

  function ExprTally(e: Expr): Tally
    decreases e, 0
  {
    if e.NoExpr? then NOTHING
    else Plus(Plus(Plus(Plus(ExprTally(e.left), NodeTally(e.op, e.token)), ExprTally(e.right)), SelectTally(e.select)),
              ListTally(e.list))
  }

  function ListTally(l: ExprList): Tally
    decreases l, Size(l) + 1
  {
    if l.NoList? then NOTHING else ItemsTally(l, 0)
  }

  function ItemsTally(l: ExprList, i: nat): Tally
    requires l.ExprList? && i <= |l.items|
    decreases l, |l.items| - i
  {
    if i == |l.items| then NOTHING else Plus(ExprTally(l.items[i].expr), ItemsTally(l, i + 1))
  }

  function SelectTally(s: Select): Tally
    decreases s, 1
  {
    if s.NoSelect? then NOTHING
    else Plus(SelectHeadTally(s), SelectTailTally(s))
  }

  function SelectHeadTally(s: Select): Tally
    requires s.Select?
    decreases s, 0
  {
    Plus(Plus(SelectTally(s.prior), ListTally(s.columns)), SrcTally(s.src))
  }

  function SelectTailTally(s: Select): Tally
    requires s.Select?
    decreases s, 0
  {
    Plus(Plus(Plus(ExprTally(s.where), ListTally(s.groupBy)), Plus(ListTally(s.orderBy), ExprTally(s.having))),
         Plus(ExprTally(s.limit), ExprTally(s.offset)))
  }

  function SrcTally(l: SrcList): Tally
    decreases l, SrcSize(l) + 1
  {
    if l.NoSrc? then NOTHING else SrcItemsTally(l, 0)
  }

  function SrcItemsTally(l: SrcList, i: nat): Tally
    requires l.SrcList? && i <= |l.items|
    decreases l, |l.items| - i
  {
    if i == |l.items| then NOTHING
    else Plus(Plus(SelectTally(l.items[i].select), ExprTally(l.items[i].on)), SrcItemsTally(l, i + 1))
  }

  function RowsTally(rows: seq<ExprList>, i: nat): Tally
    requires i <= |rows|
    decreases |rows| - i
  {
    if i == |rows| then NOTHING else Plus(ListTally(rows[i]), RowsTally(rows, i + 1))
  }

  function ValuesTally(l: ValuesList): Tally {
    if l.NoValues? then NOTHING else RowsTally(l.rows, 0)
  }

  function InsertTally(p: Insert): Tally {
    if p.NoInsert? then NOTHING
    else Plus(Plus(Plus(SrcTally(p.table), ListTally(p.sets)), SelectTally(p.select)), ValuesTally(p.values))
  }

  function ClausesTally(where: Expr, limit: Expr, offset: Expr): Tally {
    Plus(Plus(ExprTally(where), ExprTally(limit)), ExprTally(offset))
  }

  function StatementTally(s: Statement): Tally {
    match s
    case SelectSql(p) => SelectTally(p)
    case InsertSql(p) => InsertTally(p)
    case ReplaceSql(p) => InsertTally(p)
    case DeleteSql(p) =>
      if p.NoDelete? then NOTHING
      else Plus(SrcTally(p.table), ClausesTally(p.where, p.limit, p.offset))
    case UpdateSql(p) =>
      if p.NoUpdate? then NOTHING
      else Plus(Plus(SrcTally(p.table), ListTally(p.changes)), ClausesTally(p.where, p.limit, p.offset))
    case UnknownSql => NOTHING
  }

  function Flags(o: Out): Tally {
    Tally(o.literal, o.prepared, o.stars)
  }

  /** Printing took `o` to `p` and met what `t` counts. */
  ghost predicate Met(o: Out, t: Tally, p: Out) {
    Flags(p) == Plus(Flags(o), t)
  }

  lemma Chain(o: Out, t: Tally, p: Out, u: Tally, q: Out)
    requires Met(o, t, p) && Met(p, u, q)
    ensures Met(o, Plus(t, u), q)
  {}

  lemma Around(o: Out, before: string, t: Tally, p: Out, after: string)
    requires Met(Add(o, before), t, p)
    ensures Met(o, t, Add(p, after)) && Met(o, t, p)
  {}

  lemma TokenMet(o: Out, op: Op, parent: Op, text: string, after: string)
    ensures Met(o, NodeTally(op, text), Add(TokenOut(o, op, parent, text), after))
  {}

  lemma {:induction false} ExprMet(o: Out, e: Expr)
    ensures Met(o, ExprTally(e), ExprOut(o, e))
    decreases e, 0
  {
    if e.Expr? {
      var l, n, r, s := ExprTally(e.left), NodeTally(e.op, e.token), ExprTally(e.right), SelectTally(e.select);
      var a := ExprOut(o, e.left);
      var b := Add(TokenOut(a, e.op, e.parent, e.token), Opening(e));
      var c := ExprOut(b, e.right);
      var d := SubSelectOut(c, e.select, e.op);
      var f := ListOut(d, e.list, e.op);
      ExprMet(o, e.left);
      TokenMet(a, e.op, e.parent, e.token, Opening(e));
      Chain(o, l, a, n, b);
      ExprMet(b, e.right);
      Chain(o, Plus(l, n), b, r, c);
      SubSelectMet(c, e.select, e.op);
      Chain(o, Plus(Plus(l, n), r), c, s, d);
      ListMet(d, e.list, e.op);
      Chain(o, Plus(Plus(Plus(l, n), r), s), d, ListTally(e.list), f);
      Around(o, "", ExprTally(e), f, Closing(e));
    }
  }

  lemma SubSelectMet(o: Out, s: Select, op: Op)
    ensures Met(o, SelectTally(s), SubSelectOut(o, s, op))
    decreases s, 2
  {
    if s.Select? {
      SelectMet(o, s);
      SelectMet(Add(o, "("), s);
      Around(o, "(", SelectTally(s), SelectOut(Add(o, "("), s), ")");
    }
  }

  lemma ListMet(o: Out, l: ExprList, op: Op)
    ensures Met(o, ListTally(l), ListOut(o, l, op))
    decreases l, Size(l) + 1
  {
    if l.ExprList? { ItemsMet(o, l, 0, op, false); }
  }

  lemma ItemMet(o: Out, x: ExprItem, i: nat, last: bool, op: Op, escape: bool)
    ensures Met(o, ExprTally(x.expr), ItemOut(o, x, i, last, op, escape))
    decreases x, 0
  {
    var before := BeforeItem(x, i, op);
    var a := ExprOut(Add(o, before), x.expr);
    ExprMet(Add(o, before), x.expr);
    Around(o, before, ExprTally(x.expr), a, ItemName(x, op));
    var b := Add(a, ItemName(x, op));
    Around(o, "", ExprTally(x.expr), b, AfterItem(x, last, op, escape, b.like));
  }

  lemma {:induction false} ItemsMet(o: Out, l: ExprList, i: nat, op: Op, escape: bool)
    requires l.ExprList? && i <= |l.items|
    ensures Met(o, ItemsTally(l, i), ItemsOut(o, l, i, op, escape))
    decreases l, |l.items| - i
  {
    if i < |l.items| {
      var last := i == |l.items| - 1;
      var a := ItemOut(o, l.items[i], i, last, op, escape);
      ItemMet(o, l.items[i], i, last, op, escape);
      if !last && op.LikeKw? {
        ItemsMet(a, l, i + 1, Zero, escape || |l.items| >= 3);
      } else {
        ItemsMet(a, l, i + 1, op, escape);
      }
      Chain(o, ExprTally(l.items[i].expr), a, ItemsTally(l, i + 1), ItemsOut(o, l, i, op, escape));
    }
  }

  lemma ClauseMet(o: Out, head: string, e: Expr)
    ensures Met(o, ExprTally(e), Clause(o, head, e))
    decreases e, 1
  {
    if e.Expr? {
      ExprMet(Add(o, head), e);
      Around(o, head, ExprTally(e), ExprOut(Add(o, head), e), "");
    }
  }

  lemma ListClauseMet(o: Out, head: string, l: ExprList, op: Op)
    ensures Met(o, ListTally(l), ListClause(o, head, l, op))
    decreases l, Size(l) + 2
  {
    if l.ExprList? {
      ListMet(Add(o, head), l, op);
      Around(o, head, ListTally(l), ListOut(Add(o, head), l, op), "");
    }
  }

  lemma {:induction false} SelectMet(o: Out, s: Select)
    ensures Met(o, SelectTally(s), SelectOut(o, s))
    decreases s, 1
  {
    if s.Select? {
      SelectHeadMet(o, s);
      SelectTailMet(SelectHead(o, s), s);
      Chain(o, SelectHeadTally(s), SelectHead(o, s), SelectTailTally(s), SelectOut(o, s));
    }
  }

  lemma PriorMet(o: Out, s: Select)
    requires s.Select?
    ensures Met(o, SelectTally(s.prior), PriorOut(o, s))
    decreases s, 0, 0
  {
    if s.prior.Select? {
      SelectMet(o, s.prior);
      Around(o, "", SelectTally(s.prior), SelectOut(o, s.prior), if s.op.Union? then " union " else "");
    }
  }

  lemma FromMet(o: Out, l: SrcList)
    ensures Met(o, SrcTally(l), FromOut(o, l))
    decreases l, SrcSize(l) + 2
  {
    SrcMet(Add(o, " from "), l);
    Around(o, " from ", SrcTally(l), SrcOut(Add(o, " from "), l), "");
  }

  lemma SelectHeadMet(o: Out, s: Select)
    requires s.Select?
    ensures Met(o, SelectHeadTally(s), SelectHead(o, s))
    decreases s, 0, 1
  {
    var head, t, u := if s.distinct then "select distinct " else "select ", SelectTally(s.prior), ListTally(s.columns);
    var a := PriorOut(o, s);
    var b := ListOut(Add(a, head), s.columns, Zero);
    PriorMet(o, s);
    ListMet(Add(a, head), s.columns, Zero);
    Around(a, head, u, b, "");
    Chain(o, t, a, u, b);
    FromMet(b, s.src);
    Chain(o, Plus(t, u), b, SrcTally(s.src), SelectHead(o, s));
  }

  lemma SelectTailMet(o: Out, s: Select)
    requires s.Select?
    ensures Met(o, SelectTailTally(s), SelectTail(o, s))
    decreases s, 0
  {
    var a := Clause(o, " where ", s.where);
    var b := ListClause(a, " group by ", s.groupBy, Zero);
    var c := ListClause(b, " order by ", s.orderBy, Order);
    var d := Clause(c, " having ", s.having);
    var e := Clause(d, " limit ", s.limit);
    ClauseMet(o, " where ", s.where);
    ListClauseMet(a, " group by ", s.groupBy, Zero);
    ListClauseMet(b, " order by ", s.orderBy, Order);
    ClauseMet(c, " having ", s.having);
    ClauseMet(d, " limit ", s.limit);
    ClauseMet(e, " offset ", s.offset);
    Chain(o, ExprTally(s.where), a, ListTally(s.groupBy), b);
    Chain(b, ListTally(s.orderBy), c, ExprTally(s.having), d);
    Chain(d, ExprTally(s.limit), e, ExprTally(s.offset), SelectTail(o, s));
    Chain(o, Plus(ExprTally(s.where), ListTally(s.groupBy)), b, Plus(ListTally(s.orderBy), ExprTally(s.having)), d);
    Chain(o, Plus(Plus(ExprTally(s.where), ListTally(s.groupBy)), Plus(ListTally(s.orderBy), ExprTally(s.having))), d,
          Plus(ExprTally(s.limit), ExprTally(s.offset)), SelectTail(o, s));
  }

  lemma {:induction false} IdsMet(o: Out, names: seq<string>, i: nat)
    requires i <= |names|
    ensures Met(o, NOTHING, IdsOut(o, names, i))
    decreases |names| - i
  {
    if i < |names| { IdsMet(Add(o, names[i] + if i < |names| - 1 then "," else ""), names, i + 1); }
  }

  lemma TableMet(o: Out, s: Select)
    ensures Met(o, SelectTally(s), TableOut(o, s))
    decreases s, 2
  {
    if s.Select? {
      SelectMet(Add(o, " ("), s);
      Around(o, " (", SelectTally(s), SelectOut(Add(o, " ("), s), ") ");
    }
  }

  lemma UsingMet(o: Out, l: IdList)
    ensures Met(o, NOTHING, UsingOut(o, l))
  {
    if l.IdList? { IdsMet(Add(o, " using ("), l.names, 0); }
  }

  lemma OnMet(o: Out, e: Expr)
    ensures Met(o, ExprTally(e), OnOut(o, e))
    decreases e, 1
  {
    if e.Expr? {
      ExprMet(Add(o, " on ("), e);
      Around(o, " on (", ExprTally(e), ExprOut(Add(o, " on ("), e), ") ");
    }
  }

  lemma SrcItemMet(o: Out, x: SrcItem, named: bool, after: string)
    ensures Met(o, Plus(SelectTally(x.select), ExprTally(x.on)), SrcItemOut(o, x, named, after))
    decreases x, 0
  {
    var head, t := TableHead(x, named), SelectTally(x.select);
    var a := TableOut(Add(o, head), x.select);
    TableMet(Add(o, head), x.select);
    Around(o, head, t, a, Alias(x));
    Around(o, "", t, Add(a, Alias(x)), after);
    var b := Add(Add(a, Alias(x)), after);
    UsingMet(b, x.using);
    OnMet(UsingOut(b, x.using), x.on);
    Chain(o, t, UsingOut(b, x.using), ExprTally(x.on), SrcItemOut(o, x, named, after));
  }

  lemma {:induction false} SrcItemsMet(o: Out, l: SrcList, i: nat, named: bool)
    requires l.SrcList? && i <= |l.items|
    ensures Met(o, SrcItemsTally(l, i), SrcItemsOut(o, l, i, named))
    decreases l, |l.items| - i
  {
    if i < |l.items| {
      var x := l.items[i];
      var a := SrcItemOut(o, x, named, AfterTable(l.items, i));
      SrcItemMet(o, x, named, AfterTable(l.items, i));
      SrcItemsMet(a, l, i + 1, NamesNext(l.items, i));
      Chain(o, Plus(SelectTally(x.select), ExprTally(x.on)), a, SrcItemsTally(l, i + 1), SrcItemsOut(o, l, i, named));
    }
  }

  lemma SrcMet(o: Out, l: SrcList)
    ensures Met(o, SrcTally(l), SrcOut(o, l))
    decreases l, SrcSize(l) + 1
  {
    if l.SrcList? { SrcItemsMet(o, l, 0, false); }
  }

  lemma {:induction false} RowsMet(o: Out, rows: seq<ExprList>, i: nat)
    requires i <= |rows|
    ensures Met(o, RowsTally(rows, i), RowsOut(o, rows, i))
    decreases |rows| - i
  {
    if i < |rows| {
      var end := if i < |rows| - 1 then ")," else ")";
      var a := ListOut(Add(o, "("), rows[i], Zero);
      ListMet(Add(o, "("), rows[i], Zero);
      Around(o, "(", ListTally(rows[i]), a, end);
      RowsMet(Add(a, end), rows, i + 1);
      Chain(o, ListTally(rows[i]), Add(a, end), RowsTally(rows, i + 1), RowsOut(o, rows, i));
    }
  }

  lemma ValuesMet(o: Out, l: ValuesList)
    ensures Met(o, ValuesTally(l), ValuesOut(o, l))
  {
    if l.ValuesList? {
      RowsMet(Add(o, " values"), l.rows, 0);
      Around(o, " values", ValuesTally(l), ValuesOut(o, l), "");
    }
  }

  lemma InsertMet(o: Out, p: Insert, replace: bool)
    ensures Met(o, InsertTally(p), InsertOut(o, p, replace))
  {
    if p.Insert? {
      var head := if replace then "replace into " else "insert into ";
      var t, u, v := SrcTally(p.table), ListTally(p.sets), SelectTally(p.select);
      var a := SrcOut(Add(o, head), p.table);
      SrcMet(Add(o, head), p.table);
      Around(o, head, t, a, "");
      if p.columns.IdList? { IdsMet(Add(a, "("), p.columns.names, 0); }
      var b := if p.columns.NoIds? then a else Add(IdListOut(Add(a, "("), p.columns), ")");
      assert Met(o, t, b);
      var c := ListClause(b, " set ", p.sets, Set);
      ListClauseMet(b, " set ", p.sets, Set);
      Chain(o, t, b, u, c);
      SelectMet(Add(c, " "), p.select);
      Around(c, " ", v, SelectOut(Add(c, " "), p.select), "");
      var d := if p.select.NoSelect? then c else SelectOut(Add(c, " "), p.select);
      Chain(o, Plus(t, u), c, v, d);
      ValuesMet(d, p.values);
      Chain(o, Plus(Plus(t, u), v), d, ValuesTally(p.values), InsertOut(o, p, replace));
    }
  }

  lemma ClausesMet(o: Out, where: Expr, limit: Expr, offset: Expr)
    ensures Met(o, ClausesTally(where, limit, offset),
                Clause(Clause(Clause(o, " where ", where), " limit ", limit), " offset ", offset))
  {
    var a := Clause(o, " where ", where);
    var b := Clause(a, " limit ", limit);
    ClauseMet(o, " where ", where);
    ClauseMet(a, " limit ", limit);
    ClauseMet(b, " offset ", offset);
    Chain(o, ExprTally(where), a, ExprTally(limit), b);
    Chain(o, Plus(ExprTally(where), ExprTally(limit)), b, ExprTally(offset), Clause(b, " offset ", offset));
  }

  lemma StatementMet(o: Out, s: Statement)
    ensures Met(o, StatementTally(s), StatementOut(o, s))
  {
    match s
    case SelectSql(p) => SelectMet(o, p);
    case InsertSql(p) => InsertMet(o, p, false);
    case ReplaceSql(p) => InsertMet(o, p, true);
    case DeleteSql(p) =>
      if p.Delete? {
        var a := SrcOut(Add(o, "delete from "), p.table);
        SrcMet(Add(o, "delete from "), p.table);
        Around(o, "delete from ", SrcTally(p.table), a, "");
        ClausesMet(a, p.where, p.limit, p.offset);
        Chain(o, SrcTally(p.table), a, ClausesTally(p.where, p.limit, p.offset), StatementOut(o, s));
      }
    case UpdateSql(p) =>
      if p.Update? {
        var a := SrcOut(Add(o, "update "), p.table);
        SrcMet(Add(o, "update "), p.table);
        Around(o, "update ", SrcTally(p.table), a, "");
        var b := ListClause(a, " set ", p.changes, Set);
        ListClauseMet(a, " set ", p.changes, Set);
        Chain(o, SrcTally(p.table), a, ListTally(p.changes), b);
        ClausesMet(b, p.where, p.limit, p.offset);
        Chain(o, Plus(SrcTally(p.table), ListTally(p.changes)), b, ClausesTally(p.where, p.limit, p.offset), StatementOut(o, s));
      }
    case UnknownSql =>
  }

  /** A statement counts as prepared if and only if it has a variable or no literal at
      all, and as a select of everything if and only if it has a `*` column. */
  lemma FlagsMean(s: Statement)
    ensures var info, t := Info(StatementOut(START, s)), StatementTally(s);
            && info.prepared == (t.variable || !t.literal)
            && info.selectAll == (t.stars > 0)
            && (!t.literal ==> info.wildcard == "")
  {
    StatementMet(START, s);
  }
}
