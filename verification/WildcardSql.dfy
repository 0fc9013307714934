/** Printing a parsed statement with its literals replaced (`sql_Info_processor.cc`). */
module WildcardSql {

  // ----- parsed statements

  /** The token codes the printer tells apart; `Zero` is no code. */
  datatype Op =
    | Zero | In | All | Dot | Eq | Ne | Gt | Le | Lt | Ge | And | Or | BitAnd | BitOr | BitNot
    | LShift | RShift | Between | Exists | Not | Case | Id | String | Float | Integer | Blob
    | LikeKw | Function | Variable | Set | Order | Union | Other(code: nat)

  /** A `char *` that may be null. */
  datatype Text = NoText | Text(text: string)

  /** `token` is the text of the node's token and `parent` the code of the node that
      `pParent` points to, `Zero` if it is null. */
  datatype Expr =
    | NoExpr
    | Expr(op: Op, token: string, parent: Op, left: Expr, right: Expr, select: Select, list: ExprList)

  datatype ExprItem = ExprItem(name: Text, expr: Expr, desc: bool)

  datatype ExprList = NoList | ExprList(items: seq<ExprItem>)

  datatype Select =
    | NoSelect
    | Select(prior: Select, op: Op, distinct: bool, columns: ExprList, src: SrcList, where: Expr,
             groupBy: ExprList, orderBy: ExprList, having: Expr, limit: Expr, offset: Expr)

  datatype IdList = NoIds | IdList(names: seq<string>)

  datatype SrcItem = SrcItem(database: Text, name: Text, select: Select, alias: Text, join: bv8, using: IdList, on: Expr)

  datatype SrcList = NoSrc | SrcList(items: seq<SrcItem>)

  datatype ValuesList = NoValues | ValuesList(rows: seq<ExprList>)

  datatype Insert =
    | NoInsert
    | Insert(table: SrcList, columns: IdList, sets: ExprList, select: Select, values: ValuesList)

  datatype Delete = NoDelete | Delete(table: SrcList, where: Expr, limit: Expr, offset: Expr)

  datatype Update = NoUpdate | Update(table: SrcList, changes: ExprList, where: Expr, limit: Expr, offset: Expr)

  datatype Statement =
    | SelectSql(select: Select)
    | InsertSql(insert: Insert)
    | ReplaceSql(insert: Insert)
    | DeleteSql(delete: Delete)
    | UpdateSql(update: Update)
    | UnknownSql

  // ----- the printer as a function of its state

  /** The processor's fields.  `gen` is `need_gen_wildcard_sql_`, `literal` is
      `is_parameter_wildcard_` and `stars` is `select_all_count_`. */
  datatype Out = Out(sql: string, like: string, gen: bool, prepared: bool, literal: bool, stars: nat)

  function Add(o: Out, s: string): Out {
    o.(sql := o.sql + s)
  }

  predicate IsLiteral(op: Op) {
    op.String? || op.Float? || op.Integer? || op.Blob?
  }

  predicate IsLogic(e: Expr) {
    e.Expr? && (e.op.And? || e.op.Or?)
  }

  /** What a node without token text prints. */
  function Symbol(op: Op, parent: Op): string {
    match op
    case In => if parent.Not? then " not in(" else " in("
    case All => "*"
    case Dot => "."
    case Eq => " = "
    case Ne => " != "
    case Gt => " > "
    case Le => " <= "
    case Lt => " < "
    case Ge => " >= "
    case And => " and "
    case Or => " or "
    case BitAnd => " & "
    case BitOr => " | "
    case BitNot => " ~ "
    case LShift => " << "
    case RShift => " >> "
    case Between => " between "
    case Exists => if parent.Not? then " not exists(" else " exists("
    case _ => ""
  }

  function TokenOut(o: Out, op: Op, parent: Op, text: string): Out {
    if text == "" then
      var o' := Add(o, Symbol(op, parent));
      if op.All? then o'.(stars := o.stars + 1) else o'
    else if IsLiteral(op) then Add(o, if o.gen then "?" else text).(literal := true)
    else if op.LikeKw? then o.(like := if parent.Not? then "not " + text else text)
    else if op.Function? then Add(o, text + "(")
    else if op.Variable? then Add(o, text).(prepared := true)
    else Add(o, (if op.Id? && parent.Case? then " case " else "") + text)
  }

  /** What follows the last part of a node. */
  function Closing(e: Expr): string
    requires e.Expr?
  {
    match e.op
    case In => ")"
    case Exists => ")"
    case And => if IsLogic(e.right) then ")" else ""
    case Or => if IsLogic(e.right) then ")" else ""
    case Function => if e.list.ExprList? || e.left.Expr? || e.right.Expr? then ")" else "*)"
    case _ => ""
  }

  function Opening(e: Expr): string
    requires e.Expr?
  {
    if IsLogic(e) && IsLogic(e.right) then "(" else ""
  }

  function ExprOut(o: Out, e: Expr): Out
    decreases e, 0
  {
    if e.NoExpr? then o
    else
      var a := ExprOut(o, e.left);
      var b := Add(TokenOut(a, e.op, e.parent, e.token), Opening(e));
      var c := ExprOut(b, e.right);
      var d := SubSelectOut(c, e.select, e.op);
      Add(ListOut(d, e.list, e.op), Closing(e))
  }

  function SubSelectOut(o: Out, s: Select, op: Op): Out
    decreases s, 2
  {
    if s.NoSelect? then o
    else if op.In? then SelectOut(o, s)
    else Add(SelectOut(Add(o, "("), s), ")")
  }

  function ListOut(o: Out, l: ExprList, op: Op): Out
    decreases l, Size(l) + 1
  {
    if l.NoList? then o else ItemsOut(o, l, 0, op, false)
  }

  ghost function Size(l: ExprList): nat {
    if l.NoList? then 0 else |l.items|
  }

  /** What stands before an item of a list. */
  function BeforeItem(x: ExprItem, i: nat, op: Op): string {
    if x.name.Text? && op.Set? then x.name.text + " = "
    else if op.Case? then if i % 2 == 0 then " when " else " then "
    else ""
  }

  function ItemName(x: ExprItem, op: Op): string {
    if x.name.NoText? || op.Set? then ""
    else (if x.expr.Expr? && x.expr.op.Case? then " end " else " as ") + x.name.text
  }

  /** What stands between an item and the next, or after the last one. */
  function AfterItem(x: ExprItem, last: bool, op: Op, escape: bool, like: string): string {
    if last then if op.Order? && x.desc then " desc" else ""
    else if op.Between? then " and "
    else if op.LikeKw? then " " + like + " "
    else if op.Order? then if x.desc then " desc," else ","
    else if op.Case? then ""
    else if escape then " escape " else ","
  }

  function ItemOut(o: Out, x: ExprItem, i: nat, last: bool, op: Op, escape: bool): Out
    decreases x, 0
  {
    var a := Add(ExprOut(Add(o, BeforeItem(x, i, op)), x.expr), ItemName(x, op));
    Add(a, AfterItem(x, last, op, escape, a.like))
  }

  function ItemsOut(o: Out, l: ExprList, i: nat, op: Op, escape: bool): Out
    requires l.ExprList? && i <= |l.items|
    decreases l, |l.items| - i
  {
    if i == |l.items| then o
    else
      var last := i == |l.items| - 1;
      var a := ItemOut(o, l.items[i], i, last, op, escape);
      if !last && op.LikeKw? then ItemsOut(a, l, i + 1, Zero, escape || |l.items| >= 3)
      else ItemsOut(a, l, i + 1, op, escape)
  }

  /** A clause that is printed only if it is there. */
  function Clause(o: Out, head: string, e: Expr): Out
    decreases e, 1
  {
    if e.NoExpr? then o else ExprOut(Add(o, head), e)
  }

  function ListClause(o: Out, head: string, l: ExprList, op: Op): Out
    decreases l, Size(l) + 2
  {
    if l.NoList? then o else ListOut(Add(o, head), l, op)
  }

  function SelectOut(o: Out, s: Select): Out
    decreases s, 1
  {
    if s.NoSelect? then o else SelectTail(SelectHead(o, s), s)
  }

  function PriorOut(o: Out, s: Select): Out
    requires s.Select?
    decreases s, 0, 0
  {
    if s.prior.NoSelect? then o else Add(SelectOut(o, s.prior), if s.op.Union? then " union " else "")
  }

  function FromOut(o: Out, l: SrcList): Out
    decreases l, SrcSize(l) + 2
  {
    if l.NoSrc? || l.items == [] then o else SrcOut(Add(o, " from "), l)
  }

  /** A select up to its tables. */
  function SelectHead(o: Out, s: Select): Out
    requires s.Select?
    decreases s, 0, 1
  {
    var a := Add(PriorOut(o, s), if s.distinct then "select distinct " else "select ");
    FromOut(ListOut(a, s.columns, Zero), s.src)
  }

  function SelectTail(o: Out, s: Select): Out
    requires s.Select?
    decreases s, 0
  {
    var d := Clause(o, " where ", s.where);
    var e := ListClause(d, " group by ", s.groupBy, Zero);
    var f := ListClause(e, " order by ", s.orderBy, Order);
    var g := Clause(f, " having ", s.having);
    Clause(Clause(g, " limit ", s.limit), " offset ", s.offset)
  }

  function IdsOut(o: Out, names: seq<string>, i: nat): Out
    requires i <= |names|
    decreases |names| - i
  {
    if i == |names| then o
    else IdsOut(Add(o, names[i] + if i < |names| - 1 then "," else ""), names, i + 1)
  }

  function IdListOut(o: Out, l: IdList): Out {
    if l.NoIds? then o else IdsOut(o, l.names, 0)
  }

  predicate Joins(x: SrcItem) {
    x.join != 0 && (x.using.IdList? || x.on.Expr?)
  }

  function JoinWords(j: bv8): string {
    (if j & 0x08 != 0 then " left" else "") + (if j & 0x10 != 0 then " right" else "")
    + (if j & 0x80 != 0 then " full" else "") + (if j & 0x04 != 0 then " natural" else "")
    + (if j & 0x20 != 0 then " outer" else "") + " join "
  }

  /** A join prints the name of the next table itself. */
  function AfterTable(items: seq<SrcItem>, i: nat): string
    requires i < |items|
  {
    if Joins(items[i]) then
      JoinWords(items[i].join) + if i < |items| - 1 && items[i + 1].name.Text? then items[i + 1].name.text else ""
    else if i < |items| - 1 then ","
    else ""
  }

  predicate NamesNext(items: seq<SrcItem>, i: nat)
    requires i < |items|
  {
    Joins(items[i]) && i < |items| - 1 && items[i + 1].name.Text?
  }

  function TableHead(x: SrcItem, named: bool): string {
    (if x.database.Text? then x.database.text + "." else "") + if !named && x.name.Text? then x.name.text else ""
  }

  function Alias(x: SrcItem): string {
    if x.alias.Text? then " as " + x.alias.text else ""
  }

  function UsingOut(o: Out, l: IdList): Out {
    if l.NoIds? then o else Add(IdListOut(Add(o, " using ("), l), ") ")
  }

  function OnOut(o: Out, e: Expr): Out
    decreases e, 1
  {
    if e.NoExpr? then o else Add(ExprOut(Add(o, " on ("), e), ") ")
  }

  function TableOut(o: Out, s: Select): Out
    decreases s, 2
  {
    if s.NoSelect? then o else Add(SelectOut(Add(o, " ("), s), ") ")
  }

  function SrcItemOut(o: Out, x: SrcItem, named: bool, after: string): Out
    decreases x, 0
  {
    var a := Add(TableOut(Add(o, TableHead(x, named)), x.select), Alias(x));
    OnOut(UsingOut(Add(a, after), x.using), x.on)
  }

  function SrcItemsOut(o: Out, l: SrcList, i: nat, named: bool): Out
    requires l.SrcList? && i <= |l.items|
    decreases l, |l.items| - i
  {
    if i == |l.items| then o
    else SrcItemsOut(SrcItemOut(o, l.items[i], named, AfterTable(l.items, i)), l, i + 1, NamesNext(l.items, i))
  }

  ghost function SrcSize(l: SrcList): nat {
    if l.NoSrc? then 0 else |l.items|
  }

  function SrcOut(o: Out, l: SrcList): Out
    decreases l, SrcSize(l) + 1
  {
    if l.NoSrc? then o else SrcItemsOut(o, l, 0, false)
  }

  function RowsOut(o: Out, rows: seq<ExprList>, i: nat): Out
    requires i <= |rows|
    decreases |rows| - i
  {
    if i == |rows| then o
    else RowsOut(Add(ListOut(Add(o, "("), rows[i], Zero), if i < |rows| - 1 then ")," else ")"), rows, i + 1)
  }

  function ValuesOut(o: Out, l: ValuesList): Out {
    if l.NoValues? then o else RowsOut(Add(o, " values"), l.rows, 0)
  }

  function InsertOut(o: Out, p: Insert, replace: bool): Out {
    if p.NoInsert? then o
    else
      var a := SrcOut(Add(o, if replace then "replace into " else "insert into "), p.table);
      var b := if p.columns.NoIds? then a else Add(IdListOut(Add(a, "("), p.columns), ")");
      var c := ListClause(b, " set ", p.sets, Set);
      var d := if p.select.NoSelect? then c else SelectOut(Add(c, " "), p.select);
      ValuesOut(d, p.values)
  }

  function DeleteOut(o: Out, p: Delete): Out {
    if p.NoDelete? then o
    else
      var a := SrcOut(Add(o, "delete from "), p.table);
      Clause(Clause(Clause(a, " where ", p.where), " limit ", p.limit), " offset ", p.offset)
  }

  function UpdateOut(o: Out, p: Update): Out {
    if p.NoUpdate? then o
    else
      var a := ListClause(SrcOut(Add(o, "update "), p.table), " set ", p.changes, Set);
      Clause(Clause(Clause(a, " where ", p.where), " limit ", p.limit), " offset ", p.offset)
  }

  /** Null objects and other kinds of statement are refused. */
  predicate Supported(s: Statement) {
    match s
    case SelectSql(p) => p.Select?
    case InsertSql(p) => p.Insert?
    case ReplaceSql(p) => p.Insert?
    case DeleteSql(p) => p.Delete?
    case UpdateSql(p) => p.Update?
    case UnknownSql => false
  }

  function StatementOut(o: Out, s: Statement): Out {
    match s
    case SelectSql(p) => SelectOut(o, p)
    case InsertSql(p) => InsertOut(o, p, false)
    case ReplaceSql(p) => InsertOut(o, p, true)
    case DeleteSql(p) => DeleteOut(o, p)
    case UpdateSql(p) => UpdateOut(o, p)
    case UnknownSql => o
  }

  const START := Out("", "", true, false, false, 0)

  // ----- the processor

  datatype SqlInfo = SqlInfo(wildcard: string, prepared: bool, selectAll: bool)

  class SqlInfoProcessor {
    var wildcardSql: string
    var like: string
    var needGenWildcardSql: bool
    var isPreparedStatement: bool
    var isParameterWildcard: bool
    var selectAllCount: nat

    constructor ()
      ensures State() == START
    {
      wildcardSql, like := "", "";
      needGenWildcardSql, isPreparedStatement, isParameterWildcard, selectAllCount := true, false, false, 0;
    }

    function State(): Out
      reads this
    {
      Out(wildcardSql, like, needGenWildcardSql, isPreparedStatement, isParameterWildcard, selectAllCount)
    }

    method Append(s: string)
      modifies this
      ensures State() == Add(old(State()), s)
    {
      wildcardSql := wildcardSql + s;
    }

    method ProcessToken(p: Expr)
      requires p.Expr?
      modifies this
      ensures State() == TokenOut(old(State()), p.op, p.parent, p.token)
    {
      if p.token == "" {
        Append(Symbol(p.op, p.parent));
        if p.op.All? {
          selectAllCount := selectAllCount + 1;
        }
        return;
      }
      if IsLiteral(p.op) {
        Append(if needGenWildcardSql then "?" else p.token);
        isParameterWildcard := true;
      } else if p.op.LikeKw? {
        like := if p.parent.Not? then "not " + p.token else p.token;
      } else if p.op.Function? {
        Append(p.token + "(");
      } else if p.op.Variable? {
        Append(p.token);
        isPreparedStatement := true;
      } else {
        Append((if p.op.Id? && p.parent.Case? then " case " else "") + p.token);
      }
    }

    method ProcessExpr(p: Expr)
      modifies this
      ensures State() == ExprOut(old(State()), p)
      decreases p, 0
    {
      if p.NoExpr? {
        return;
      }
      ProcessExpr(p.left);
      ProcessToken(p);
      Append(Opening(p));
      ProcessExpr(p.right);
      if p.select.Select? {
        if !p.op.In? { Append("("); }
        ProcessSelect(p.select);
        if !p.op.In? { Append(")"); }
      }
      ProcessExprList(p.list, p.op);
      Append(Closing(p));
    }

    method ProcessExprList(p: ExprList, code: Op)
      modifies this
      ensures State() == ListOut(old(State()), p, code)
      decreases p, 1
    {
      if p.NoList? {
        return;
      }
      var op, needEscape := code, false;
      for i := 0 to |p.items|
        invariant ItemsOut(State(), p, i, op, needEscape) == old(ItemsOut(State(), p, 0, code, false))
      {
        var last := i == |p.items| - 1;
        ProcessItem(p.items[i], i, last, op, needEscape);
        if !last && op.LikeKw? {
          needEscape := needEscape || |p.items| >= 3;
          op := Zero;
        }
      }
    }

    /** One turn of the loop over a list. */
    method ProcessItem(x: ExprItem, i: nat, last: bool, op: Op, needEscape: bool)
      modifies this
      ensures State() == ItemOut(old(State()), x, i, last, op, needEscape)
      decreases x, 0
    {
      Append(BeforeItem(x, i, op));
      ProcessExpr(x.expr);
      Append(ItemName(x, op));
      Append(AfterItem(x, last, op, needEscape, like));
    }

    method ProcessSelect(p: Select)
      modifies this
      ensures State() == SelectOut(old(State()), p)
      decreases p, 0
    {
      if p.NoSelect? {
        return;
      }
      if p.prior.Select? {
        ProcessSelect(p.prior);
        Append(if p.op.Union? then " union " else "");
      }
      Append(if p.distinct then "select distinct " else "select ");
      ProcessExprList(p.columns, Zero);
      if p.src.SrcList? && p.src.items != [] {
        Append(" from ");
        ProcessSrcList(p.src);
      }
      assert State() == SelectHead(old(State()), p);
      ProcessClause(" where ", p.where);
      ProcessListClause(" group by ", p.groupBy, Zero);
      ProcessListClause(" order by ", p.orderBy, Order);
      ProcessClause(" having ", p.having);
      ProcessClause(" limit ", p.limit);
      ProcessClause(" offset ", p.offset);
    }

    method ProcessClause(head: string, e: Expr)
      modifies this
      ensures State() == Clause(old(State()), head, e)
      decreases e, 1
    {
      if e.Expr? {
        Append(head);
        ProcessExpr(e);
      }
    }

    method ProcessListClause(head: string, l: ExprList, op: Op)
      modifies this
      ensures State() == ListClause(old(State()), head, l, op)
      decreases l, 2
    {
      if l.ExprList? {
        Append(head);
        ProcessExprList(l, op);
      }
    }

    method ProcessIdList(p: IdList)
      modifies this
      ensures State() == IdListOut(old(State()), p)
    {
      if p.NoIds? {
        return;
      }
      for i := 0 to |p.names|
        invariant IdsOut(State(), p.names, i) == old(IdsOut(State(), p.names, 0))
      {
        Append(p.names[i] + if i < |p.names| - 1 then "," else "");
      }
    }

    method ProcessSrcList(p: SrcList)
      modifies this
      ensures State() == SrcOut(old(State()), p)
      decreases p, 0
    {
      if p.NoSrc? {
        return;
      }
      var named := false;
      for i := 0 to |p.items|
        invariant SrcItemsOut(State(), p, i, named) == old(SrcItemsOut(State(), p, 0, false))
      {
        ProcessSrcItem(p.items[i], named, AfterTable(p.items, i));
        named := NamesNext(p.items, i);
      }
    }

    /** One turn of the loop over the tables. */
    method ProcessSrcItem(x: SrcItem, named: bool, after: string)
      modifies this
      ensures State() == SrcItemOut(old(State()), x, named, after)
      decreases x, 0
    {
      Append(TableHead(x, named));
      if x.select.Select? {
        Append(" (");
        ProcessSelect(x.select);
        Append(") ");
      }
      Append(Alias(x));
      Append(after);
      if x.using.IdList? {
        Append(" using (");
        ProcessIdList(x.using);
        Append(") ");
      }
      if x.on.Expr? {
        Append(" on (");
        ProcessExpr(x.on);
        Append(") ");
      }
    }

    method ProcessValuesList(p: ValuesList)
      requires p.ValuesList?
      modifies this
      ensures State() == RowsOut(old(State()), p.rows, 0)
    {
      for i := 0 to |p.rows|
        invariant RowsOut(State(), p.rows, i) == old(RowsOut(State(), p.rows, 0))
      {
        Append("(");
        ProcessExprList(p.rows[i], Zero);
        Append(if i < |p.rows| - 1 then ")," else ")");
      }
    }

    method ProcessInsert(p: Insert, replace: bool)
      modifies this
      ensures State() == InsertOut(old(State()), p, replace)
    {
      if p.NoInsert? {
        return;
      }
      Append(if replace then "replace into " else "insert into ");
      ProcessSrcList(p.table);
      if p.columns.IdList? {
        Append("(");
        ProcessIdList(p.columns);
        Append(")");
      }
      ProcessListClause(" set ", p.sets, Set);
      if p.select.Select? {
        Append(" ");
        ProcessSelect(p.select);
      }
      if p.values.ValuesList? {
        Append(" values");
        ProcessValuesList(p.values);
      }
    }

    method ProcessDelete(p: Delete)
      modifies this
      ensures State() == DeleteOut(old(State()), p)
    {
      if p.NoDelete? {
        return;
      }
      Append("delete from ");
      ProcessSrcList(p.table);
      ProcessClause(" where ", p.where);
      ProcessClause(" limit ", p.limit);
      ProcessClause(" offset ", p.offset);
    }

    method ProcessUpdate(p: Update)
      modifies this
      ensures State() == UpdateOut(old(State()), p)
    {
      if p.NoUpdate? {
        return;
      }
      Append("update ");
      ProcessSrcList(p.table);
      ProcessListClause(" set ", p.changes, Set);
      ProcessClause(" where ", p.where);
      ProcessClause(" limit ", p.limit);
      ProcessClause(" offset ", p.offset);
    }

    method ProcessStatement(s: Statement) returns (ok: bool)
      modifies this
      ensures ok == Supported(s) && (ok ==> State() == StatementOut(old(State()), s))
    {
      if s.SelectSql? && s.select.Select? {
        ProcessSelect(s.select);
      } else if s.InsertSql? && s.insert.Insert? {
        ProcessInsert(s.insert, false);
      } else if s.ReplaceSql? && s.insert.Insert? {
        ProcessInsert(s.insert, true);
      } else if s.DeleteSql? && s.delete.Delete? {
        ProcessDelete(s.delete);
      } else if s.UpdateSql? && s.update.Update? {
        ProcessUpdate(s.update);
      } else {
        return false;
      }
      return true;
    }

    /** `Process` after the parse; nothing is stored for a statement that is refused. */
    method Process(s: Statement) returns (ret: int, info: SqlInfo)
      requires State() == START
      modifies this
      ensures ret == if Supported(s) then 0 else -1
      ensures info == if ret == 0 then Info(StatementOut(START, s)) else SqlInfo("", false, false)
    {
      info := SqlInfo("", false, false);
      var ok := ProcessStatement(s);
      if !ok {
        return -1, info;
      }
      if selectAllCount > 0 {
        info := info.(selectAll := true);
      }
      info := info.(prepared := isPreparedStatement || !isParameterWildcard);
      if isParameterWildcard && needGenWildcardSql {
        info := info.(wildcard := wildcardSql);
      }
      return 0, info;
    }
  }

  /** What is stored about a printed statement. */
  function Info(o: Out): SqlInfo {
    SqlInfo(if o.literal && o.gen then o.sql else "", o.prepared || !o.literal, o.stars > 0)
  }

  // ----- statements without their literals

  function EraseExpr(e: Expr): Expr
    decreases e
  {
    if e.NoExpr? then e
    else Expr(e.op, if IsLiteral(e.op) && e.token != "" then "?" else e.token, e.parent,
              EraseExpr(e.left), EraseExpr(e.right), EraseSelect(e.select), EraseList(e.list))
  }

  function EraseItem(x: ExprItem): ExprItem
    decreases x
  {
    x.(expr := EraseExpr(x.expr))
  }

  function EraseList(l: ExprList): ExprList
    decreases l
  {
    if l.NoList? then l
    else ExprList(seq(|l.items|, i requires 0 <= i < |l.items| => EraseItem(l.items[i])))
  }

  function EraseSelect(s: Select): Select
    decreases s
  {
    if s.NoSelect? then s
    else Select(EraseSelect(s.prior), s.op, s.distinct, EraseList(s.columns), EraseSrc(s.src), EraseExpr(s.where),
                EraseList(s.groupBy), EraseList(s.orderBy), EraseExpr(s.having), EraseExpr(s.limit), EraseExpr(s.offset))
  }

  function EraseSrcItem(x: SrcItem): SrcItem
    decreases x
  {
    x.(select := EraseSelect(x.select), on := EraseExpr(x.on))
  }

  function EraseSrc(l: SrcList): SrcList
    decreases l
  {
    if l.NoSrc? then l
    else SrcList(seq(|l.items|, i requires 0 <= i < |l.items| => EraseSrcItem(l.items[i])))
  }

  function EraseValues(l: ValuesList): ValuesList {
    if l.NoValues? then l
    else ValuesList(seq(|l.rows|, i requires 0 <= i < |l.rows| => EraseList(l.rows[i])))
  }

  function EraseInsert(p: Insert): Insert {
    if p.NoInsert? then p
    else Insert(EraseSrc(p.table), p.columns, EraseList(p.sets), EraseSelect(p.select), EraseValues(p.values))
  }

  /** The statement with the text of every non-empty literal replaced by `?`. */
  function Erase(s: Statement): Statement {
    match s
    case SelectSql(p) => SelectSql(EraseSelect(p))
    case InsertSql(p) => InsertSql(EraseInsert(p))
    case ReplaceSql(p) => ReplaceSql(EraseInsert(p))
    case DeleteSql(p) =>
      if p.NoDelete? then s
      else DeleteSql(Delete(EraseSrc(p.table), EraseExpr(p.where), EraseExpr(p.limit), EraseExpr(p.offset)))
    case UpdateSql(p) =>
      if p.NoUpdate? then s
      else UpdateSql(Update(EraseSrc(p.table), EraseList(p.changes), EraseExpr(p.where), EraseExpr(p.limit),
                            EraseExpr(p.offset)))
    case UnknownSql => s
  }

  // ----- printing with wildcards is printing the erased statement as it is

  /** Two runs of the printer, one with wildcards and one without, that printed the same. */
  ghost predicate Twin(a: Out, b: Out) {
    a.gen && !b.gen && a == b.(gen := true)
  }

  lemma AddTwin(a: Out, b: Out, s: string)
    requires Twin(a, b)
    ensures Twin(Add(a, s), Add(b, s))
  {}

  lemma TokenTwin(a: Out, b: Out, op: Op, parent: Op, text: string)
    requires Twin(a, b)
    ensures Twin(TokenOut(a, op, parent, text),
                 TokenOut(b, op, parent, if IsLiteral(op) && text != "" then "?" else text))
  {}

  lemma {:induction false} ExprTwin(a: Out, b: Out, e: Expr)
    requires Twin(a, b)
    ensures Twin(ExprOut(a, e), ExprOut(b, EraseExpr(e)))
    decreases e, 0
  {
    if e.Expr? {
      var f := EraseExpr(e);
      ExprTwin(a, b, e.left);
      var a1, b1 := ExprOut(a, e.left), ExprOut(b, f.left);
      TokenTwin(a1, b1, e.op, e.parent, e.token);
      SameBrackets(e);
      var a2 := Add(TokenOut(a1, e.op, e.parent, e.token), Opening(e));
      var b2 := Add(TokenOut(b1, f.op, f.parent, f.token), Opening(f));
      assert Twin(a2, b2);
      ExprTwin(a2, b2, e.right);
      var a3, b3 := ExprOut(a2, e.right), ExprOut(b2, f.right);
      SubSelectTwin(a3, b3, e.select, e.op);
      ListTwin(SubSelectOut(a3, e.select, e.op), SubSelectOut(b3, f.select, f.op), e.list, e.op);
    }
  }

  lemma SameBrackets(e: Expr)
    requires e.Expr?
    ensures Opening(EraseExpr(e)) == Opening(e) && Closing(EraseExpr(e)) == Closing(e)
  {
    ExprShape(e.left);
    ExprShape(e.right);
    assert EraseList(e.list).ExprList? == e.list.ExprList?;
  }

  lemma SubSelectTwin(a: Out, b: Out, s: Select, op: Op)
    requires Twin(a, b)
    ensures Twin(SubSelectOut(a, s, op), SubSelectOut(b, EraseSelect(s), op))
    decreases s, 2
  {
    if s.Select? {
      SelectTwin(a, b, s);
      SelectTwin(Add(a, "("), Add(b, "("), s);
    }
  }

  lemma ListTwin(a: Out, b: Out, l: ExprList, op: Op)
    requires Twin(a, b)
    ensures Twin(ListOut(a, l, op), ListOut(b, EraseList(l), op))
    decreases l, Size(l) + 1
  {
    if l.ExprList? {
      ItemsTwin(a, b, l, 0, op, false);
    }
  }

  lemma ExprShape(e: Expr)
    ensures EraseExpr(e).Expr? == e.Expr? && (e.Expr? ==> EraseExpr(e).op == e.op)
  {}

  lemma SameItemTexts(x: ExprItem, i: nat, last: bool, op: Op, escape: bool, like: string)
    ensures var y := EraseItem(x);
            BeforeItem(y, i, op) == BeforeItem(x, i, op) && ItemName(y, op) == ItemName(x, op)
            && AfterItem(y, last, op, escape, like) == AfterItem(x, last, op, escape, like)
  {
    ExprShape(x.expr);
  }

  lemma AddsTwin(a: Out, b: Out, s: string, t: string)
    requires Twin(a, b)
    ensures Twin(Add(Add(a, s), t), Add(Add(b, s), t))
  {}

  lemma ItemTwin(a: Out, b: Out, x: ExprItem, i: nat, last: bool, op: Op, escape: bool)
    requires Twin(a, b)
    ensures Twin(ItemOut(a, x, i, last, op, escape), ItemOut(b, EraseItem(x), i, last, op, escape))
    decreases x, 0
  {
    var before, name := BeforeItem(x, i, op), ItemName(x, op);
    AddTwin(a, b, before);
    ExprTwin(Add(a, before), Add(b, before), x.expr);
    var a1, b1 := ExprOut(Add(a, before), x.expr), ExprOut(Add(b, before), EraseExpr(x.expr));
    SameItemTexts(x, i, last, op, escape, a1.like);
    AddsTwin(a1, b1, name, AfterItem(x, last, op, escape, a1.like));
  }

  lemma {:induction false} ItemsTwin(a: Out, b: Out, l: ExprList, i: nat, op: Op, escape: bool)
    requires Twin(a, b) && l.ExprList? && i <= |l.items|
    ensures Twin(ItemsOut(a, l, i, op, escape), ItemsOut(b, EraseList(l), i, op, escape))
    decreases l, |l.items| - i
  {
    if i < |l.items| {
      var last := i == |l.items| - 1;
      ItemTwin(a, b, l.items[i], i, last, op, escape);
      var a', b' := ItemOut(a, l.items[i], i, last, op, escape), ItemOut(b, EraseList(l).items[i], i, last, op, escape);
      if !last && op.LikeKw? {
        ItemsTwin(a', b', l, i + 1, Zero, escape || |l.items| >= 3);
      } else {
        ItemsTwin(a', b', l, i + 1, op, escape);
      }
    }
  }

  lemma ClauseTwin(a: Out, b: Out, head: string, e: Expr)
    requires Twin(a, b)
    ensures Twin(Clause(a, head, e), Clause(b, head, EraseExpr(e)))
    decreases e, 1
  {
    if e.Expr? { ExprTwin(Add(a, head), Add(b, head), e); }
  }

  lemma ListClauseTwin(a: Out, b: Out, head: string, l: ExprList, op: Op)
    requires Twin(a, b)
    ensures Twin(ListClause(a, head, l, op), ListClause(b, head, EraseList(l), op))
    decreases l, Size(l) + 2
  {
    if l.ExprList? { ListTwin(Add(a, head), Add(b, head), l, op); }
  }

  lemma {:induction false} SelectTwin(a: Out, b: Out, s: Select)
    requires Twin(a, b)
    ensures Twin(SelectOut(a, s), SelectOut(b, EraseSelect(s)))
    decreases s, 1
  {
    if s.Select? {
      SelectHeadTwin(a, b, s);
      SelectTailTwin(SelectHead(a, s), SelectHead(b, EraseSelect(s)), s);
    }
  }

  lemma PriorTwin(a: Out, b: Out, s: Select)
    requires s.Select? && Twin(a, b)
    ensures Twin(PriorOut(a, s), PriorOut(b, EraseSelect(s)))
    decreases s, 0, 0
  {
    if s.prior.Select? {
      SelectTwin(a, b, s.prior);
      AddTwin(SelectOut(a, s.prior), SelectOut(b, EraseSelect(s.prior)), if s.op.Union? then " union " else "");
    }
  }

  lemma FromTwin(a: Out, b: Out, l: SrcList)
    requires Twin(a, b)
    ensures Twin(FromOut(a, l), FromOut(b, EraseSrc(l)))
    decreases l, SrcSize(l) + 2
  {
    AddTwin(a, b, " from ");
    SrcTwin(Add(a, " from "), Add(b, " from "), l);
  }

  lemma SelectHeadTwin(a: Out, b: Out, s: Select)
    requires s.Select? && Twin(a, b)
    ensures Twin(SelectHead(a, s), SelectHead(b, EraseSelect(s)))
    decreases s, 0, 1
  {
    var t, head := EraseSelect(s), if s.distinct then "select distinct " else "select ";
    PriorTwin(a, b, s);
    AddTwin(PriorOut(a, s), PriorOut(b, t), head);
    var a1, b1 := Add(PriorOut(a, s), head), Add(PriorOut(b, t), head);
    ListTwin(a1, b1, s.columns, Zero);
    FromTwin(ListOut(a1, s.columns, Zero), ListOut(b1, t.columns, Zero), s.src);
  }

  lemma SelectTailTwin(a: Out, b: Out, s: Select)
    requires s.Select? && Twin(a, b)
    ensures Twin(SelectTail(a, s), SelectTail(b, EraseSelect(s)))
    decreases s, 0
  {
    var t := EraseSelect(s);
    ClauseTwin(a, b, " where ", s.where);
    var a1, b1 := Clause(a, " where ", s.where), Clause(b, " where ", t.where);
    ListClauseTwin(a1, b1, " group by ", s.groupBy, Zero);
    var a2, b2 := ListClause(a1, " group by ", s.groupBy, Zero), ListClause(b1, " group by ", t.groupBy, Zero);
    ListClauseTwin(a2, b2, " order by ", s.orderBy, Order);
    var a3, b3 := ListClause(a2, " order by ", s.orderBy, Order), ListClause(b2, " order by ", t.orderBy, Order);
    ClauseTwin(a3, b3, " having ", s.having);
    var a4, b4 := Clause(a3, " having ", s.having), Clause(b3, " having ", t.having);
    ClauseTwin(a4, b4, " limit ", s.limit);
    ClauseTwin(Clause(a4, " limit ", s.limit), Clause(b4, " limit ", t.limit), " offset ", s.offset);
  }

  lemma {:induction false} IdsTwin(a: Out, b: Out, names: seq<string>, i: nat)
    requires Twin(a, b) && i <= |names|
    ensures Twin(IdsOut(a, names, i), IdsOut(b, names, i))
    decreases |names| - i
  {
    if i < |names| {
      var s := names[i] + if i < |names| - 1 then "," else "";
      IdsTwin(Add(a, s), Add(b, s), names, i + 1);
    }
  }

  lemma TableTwin(a: Out, b: Out, s: Select)
    requires Twin(a, b)
    ensures Twin(TableOut(a, s), TableOut(b, EraseSelect(s)))
    decreases s, 2
  {
    if s.Select? { SelectTwin(Add(a, " ("), Add(b, " ("), s); }
  }

  lemma UsingTwin(a: Out, b: Out, l: IdList)
    requires Twin(a, b)
    ensures Twin(UsingOut(a, l), UsingOut(b, l))
  {
    if l.IdList? { IdsTwin(Add(a, " using ("), Add(b, " using ("), l.names, 0); }
  }

  lemma OnTwin(a: Out, b: Out, e: Expr)
    requires Twin(a, b)
    ensures Twin(OnOut(a, e), OnOut(b, EraseExpr(e)))
    decreases e, 1
  {
    if e.Expr? { ExprTwin(Add(a, " on ("), Add(b, " on ("), e); }
  }

  lemma SrcItemTwin(a: Out, b: Out, x: SrcItem, named: bool, after: string)
    requires Twin(a, b)
    ensures Twin(SrcItemOut(a, x, named, after), SrcItemOut(b, EraseSrcItem(x), named, after))
    decreases x, 0
  {
    var y := EraseSrcItem(x);
    var head, alias := TableHead(x, named), Alias(x);
    assert TableHead(y, named) == head && Alias(y) == alias;
    AddTwin(a, b, head);
    TableTwin(Add(a, head), Add(b, head), x.select);
    var a1, b1 := TableOut(Add(a, head), x.select), TableOut(Add(b, head), y.select);
    AddsTwin(a1, b1, alias, after);
    var a2, b2 := Add(Add(a1, alias), after), Add(Add(b1, alias), after);
    UsingTwin(a2, b2, x.using);
    OnTwin(UsingOut(a2, x.using), UsingOut(b2, x.using), x.on);
  }

  lemma SameJoinTexts(l: SrcList, i: nat)
    requires l.SrcList? && i < |l.items|
    ensures AfterTable(EraseSrc(l).items, i) == AfterTable(l.items, i)
    ensures NamesNext(EraseSrc(l).items, i) == NamesNext(l.items, i)
  {
    ExprShape(l.items[i].on);
    var m := EraseSrc(l).items;
    assert m[i] == EraseSrcItem(l.items[i]) && Joins(m[i]) == Joins(l.items[i]);
    assert i + 1 < |m| ==> m[i + 1].name == l.items[i + 1].name;
  }

  lemma {:induction false} SrcItemsTwin(a: Out, b: Out, l: SrcList, i: nat, named: bool)
    requires Twin(a, b) && l.SrcList? && i <= |l.items|
    ensures Twin(SrcItemsOut(a, l, i, named), SrcItemsOut(b, EraseSrc(l), i, named))
    decreases l, |l.items| - i
  {
    if i < |l.items| {
      var m := EraseSrc(l);
      var after, next := AfterTable(l.items, i), NamesNext(l.items, i);
      SameJoinTexts(l, i);
      SrcItemTwin(a, b, l.items[i], named, after);
      SrcItemsTwin(SrcItemOut(a, l.items[i], named, after), SrcItemOut(b, m.items[i], named, after), l, i + 1, next);
    }
  }

  lemma SrcTwin(a: Out, b: Out, l: SrcList)
    requires Twin(a, b)
    ensures Twin(SrcOut(a, l), SrcOut(b, EraseSrc(l)))
    decreases l, SrcSize(l) + 1
  {
    if l.SrcList? { SrcItemsTwin(a, b, l, 0, false); }
  }

  lemma {:induction false} RowsTwin(a: Out, b: Out, l: ValuesList, i: nat)
    requires Twin(a, b) && l.ValuesList? && i <= |l.rows|
    ensures Twin(RowsOut(a, l.rows, i), RowsOut(b, EraseValues(l).rows, i))
    decreases |l.rows| - i
  {
    if i < |l.rows| {
      var rows, end := EraseValues(l).rows, if i < |l.rows| - 1 then ")," else ")";
      ListTwin(Add(a, "("), Add(b, "("), l.rows[i], Zero);
      RowsTwin(Add(ListOut(Add(a, "("), l.rows[i], Zero), end), Add(ListOut(Add(b, "("), rows[i], Zero), end), l, i + 1);
    }
  }

  lemma InsertTwin(a: Out, b: Out, p: Insert, replace: bool)
    requires Twin(a, b)
    ensures Twin(InsertOut(a, p, replace), InsertOut(b, EraseInsert(p), replace))
  {
    if p.Insert? {
      var q, head := EraseInsert(p), if replace then "replace into " else "insert into ";
      SrcTwin(Add(a, head), Add(b, head), p.table);
      var a1, b1 := SrcOut(Add(a, head), p.table), SrcOut(Add(b, head), q.table);
      if p.columns.IdList? { IdsTwin(Add(a1, "("), Add(b1, "("), p.columns.names, 0); }
      var a2 := if p.columns.NoIds? then a1 else Add(IdListOut(Add(a1, "("), p.columns), ")");
      var b2 := if p.columns.NoIds? then b1 else Add(IdListOut(Add(b1, "("), p.columns), ")");
      ListClauseTwin(a2, b2, " set ", p.sets, Set);
      var a3, b3 := ListClause(a2, " set ", p.sets, Set), ListClause(b2, " set ", q.sets, Set);
      SelectTwin(Add(a3, " "), Add(b3, " "), p.select);
      var a4 := if p.select.NoSelect? then a3 else SelectOut(Add(a3, " "), p.select);
      var b4 := if p.select.NoSelect? then b3 else SelectOut(Add(b3, " "), q.select);
      if p.values.ValuesList? { RowsTwin(Add(a4, " values"), Add(b4, " values"), p.values, 0); }
    }
  }

  lemma ClausesTwin(a: Out, b: Out, where: Expr, limit: Expr, offset: Expr)
    requires Twin(a, b)
    ensures Twin(Clause(Clause(Clause(a, " where ", where), " limit ", limit), " offset ", offset),
                 Clause(Clause(Clause(b, " where ", EraseExpr(where)), " limit ", EraseExpr(limit)), " offset ", EraseExpr(offset)))
  {
    ClauseTwin(a, b, " where ", where);
    var a1, b1 := Clause(a, " where ", where), Clause(b, " where ", EraseExpr(where));
    ClauseTwin(a1, b1, " limit ", limit);
    ClauseTwin(Clause(a1, " limit ", limit), Clause(b1, " limit ", EraseExpr(limit)), " offset ", offset);
  }

  /** Printing a statement with wildcards prints, and notes, what printing the statement
      with its literals replaced by `?` does without wildcards. */
  lemma WildcardIsErasedText(a: Out, b: Out, s: Statement)
    requires Twin(a, b)
    ensures Twin(StatementOut(a, s), StatementOut(b, Erase(s)))
  {
    match s
    case SelectSql(p) => SelectTwin(a, b, p);
    case InsertSql(p) => InsertTwin(a, b, p, false);
    case ReplaceSql(p) => InsertTwin(a, b, p, true);
    case DeleteSql(p) =>
      if p.Delete? {
        var a1, b1 := Add(a, "delete from "), Add(b, "delete from ");
        SrcTwin(a1, b1, p.table);
        ClausesTwin(SrcOut(a1, p.table), SrcOut(b1, EraseSrc(p.table)), p.where, p.limit, p.offset);
      }
    case UpdateSql(p) =>
      if p.Update? {
        var a1, b1 := Add(a, "update "), Add(b, "update ");
        SrcTwin(a1, b1, p.table);
        var a2, b2 := SrcOut(a1, p.table), SrcOut(b1, EraseSrc(p.table));
        ListClauseTwin(a2, b2, " set ", p.changes, Set);
        ClausesTwin(ListClause(a2, " set ", p.changes, Set), ListClause(b2, " set ", EraseList(p.changes), Set),
                    p.where, p.limit, p.offset);
      }
    case UnknownSql =>
  }

  /** Statements that differ only in the text of non-empty literals are treated alike:
      same wildcard text, same flags. */
  lemma LiteralsDoNotMatter(s: Statement, t: Statement)
    requires Erase(s) == Erase(t)
    ensures Supported(s) == Supported(t)
    ensures StatementOut(START, s) == StatementOut(START, t)
    ensures Info(StatementOut(START, s)) == Info(StatementOut(START, t))
  {
    var plain := START.(gen := false);
    WildcardIsErasedText(START, plain, s);
    WildcardIsErasedText(START, plain, t);
  }
}
