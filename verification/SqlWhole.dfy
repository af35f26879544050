/** The whole generated statement read back, clause by clause, from its own text and its final arguments. */
module SqlWhole {
  import opened Basics
  import opened OqlAst
  import opened SqlText
  import opened SqlGeneration
  import opened SqlConditions
  import opened SqlStatement
  import opened SqlTerms
  import opened SqlHaving

  // ----- reading a comma-separated clause -----

  datatype ListItem = ListItem(term: Term, descending: bool)

  /** One item: a term, in an ordered list followed by its direction. */
  function ReadItem(ts: seq<SqlTok>, args: seq<Lit>, ordered: bool): (r: Option<Read<ListItem>>)
    ensures r.Some? ==> |r.value.rest| < |ts|
  {
    match ReadTerm(ts, args)
    case None => None
    case Some(t) =>
      if !ordered then Some(Read(ListItem(t.v, false), t.rest))
      else if t.rest == [] then None
      else if t.rest[0] == Sym("ASC") then Some(Read(ListItem(t.v, false), t.rest[1..]))
      else if t.rest[0] == Sym("DESC") then Some(Read(ListItem(t.v, true), t.rest[1..]))
      else None
  }

  /** Items separated by commas, up to the end of the text. */
  function ReadItems(ts: seq<SqlTok>, args: seq<Lit>, ordered: bool): Option<seq<ListItem>>
    decreases |ts|
  {
    match ReadItem(ts, args, ordered)
    case None => None
    case Some(first) =>
      if first.rest == [] then Some([first.v])
      else if !first.rest[0].Comma? then None
      else
        match ReadItems(first.rest[1..], args, ordered)
        case None => None
        case Some(more) => Some([first.v] + more)
  }

  /** A clause without items has no text. */
  function ReadClause(ts: seq<SqlTok>, args: seq<Lit>, ordered: bool): Option<seq<ListItem>> {
    if ts == [] then Some([]) else ReadItems(ts, args, ordered)
  }

  // ----- the items of a clause -----

  /** What stands after an item's term: in an ordered list the direction. */
  function Direction(suffix: seq<SqlTok>): bool {
    suffix == [Sym("DESC")]
  }

  predicate Shaped(items: seq<Item>, ordered: bool) {
    forall i :: 0 <= i < |items| ==>
      if ordered then items[i].suffix == [Sym("ASC")] || items[i].suffix == [Sym("DESC")] else items[i].suffix == []
  }

  function Listed(cx: Context, items: seq<Item>): (r: seq<ListItem>)
    requires forall i :: 0 <= i < |items| ==> ScalarOk(cx, items[i].expr)
    ensures |r| == |items|
  {
    seq(|items|, i requires 0 <= i < |items| =>
      ListItem(Resolved(cx, items[i].expr), Direction(items[i].suffix)))
  }

  /** What may follow an item: nothing, or a comma. */
  predicate Separated(rest: seq<SqlTok>) {
    rest == [] || rest[0].Comma?
  }

  lemma ItemStandsReads(cx: Context, item: Item, b: Binder, args: seq<Lit>, ordered: bool, rest: seq<SqlTok>)
    requires Ready(cx, item.expr, b, args) && Separated(rest) && Shaped([item], ordered)
    ensures ReadItem(TranslateScalar(cx, item.expr, b).value.sql + item.suffix + rest, args, ordered)
            == Some(Read(ListItem(Resolved(cx, item.expr), Direction(item.suffix)), rest))
  {
    hide ReadTerm, TranslateScalar, ScalarOk;
    var text := TranslateScalar(cx, item.expr, b).value.sql;
    assert [item][0] == item;
    ScalarReads(cx, item.expr, b, args, item.suffix + rest);
    assert text + item.suffix + rest == text + (item.suffix + rest);
    if ordered {
      assert (item.suffix + rest)[1..] == rest;
    } else {
      assert item.suffix + rest == rest;
    }
  }

  lemma LastReads(ts: seq<SqlTok>, args: seq<Lit>, ordered: bool, item: ListItem)
    requires ReadItem(ts, args, ordered) == Some(Read(item, []))
    ensures ReadItems(ts, args, ordered) == Some([item])
  {
    hide ReadItem;
  }

  lemma FirstReads(ts: seq<SqlTok>, more: seq<SqlTok>, args: seq<Lit>, ordered: bool, item: ListItem,
                   list: seq<ListItem>)
    requires ReadItem(ts, args, ordered) == Some(Read(item, [Comma] + more))
    requires ReadItems(more, args, ordered) == Some(list)
    ensures ReadItems(ts, args, ordered) == Some([item] + list)
  {
    hide ReadItem;
    assert ([Comma] + more)[1..] == more;
  }

  /** The emitted items, with or without more of the list after them, read back one by one. */
  lemma {:induction false} ItemsRead(cx: Context, items: seq<Item>, b: Binder, args: seq<Lit>, ordered: bool,
                                     tail: seq<SqlTok>, list: seq<ListItem>)
    requires BinderOk(b) && items != [] && Shaped(items, ordered)
    requires TranslateItems(cx, items, b).Some? && TranslateItems(cx, items, b).value.b.args <= args
    requires if tail == [] then list == [] else tail[0].Comma? && ReadItems(tail[1..], args, ordered) == Some(list)
    ensures forall i :: 0 <= i < |items| ==> ScalarOk(cx, items[i].expr)
    ensures ReadItems(TranslateItems(cx, items, b).value.sql + tail, args, ordered) == Some(Listed(cx, items) + list)
  {
    hide ReadItems, ReadItem, TranslateScalar, ScalarOk, InOrder, PlainSuffix, Numbered, Shaped;
    var n := |items| - 1;
    var before := TranslateItems(cx, items[..n], b).value;
    ShapedParts(items, ordered);
    ItemsInOrder(cx, items[..n], b);
    InOrderArgs(b, before);
    ScalarIff(cx, items[n].expr, before.b);
    var item := ListItem(Resolved(cx, items[n].expr), Direction(items[n].suffix));
    var text := TranslateScalar(cx, items[n].expr, before.b).value.sql + items[n].suffix;
    ItemStandsReads(cx, items[n], before.b, args, ordered, tail);
    assert ReadItems(text + tail, args, ordered) == Some([item] + list) by {
      if tail == [] {
        LastReads(text + tail, args, ordered, item);
        assert [item] + list == [item];
      } else {
        assert tail == [Comma] + tail[1..];
        FirstReads(text + tail, tail[1..], args, ordered, item, list);
      }
    }
    if n > 0 {
      ScalarInOrder(cx, items[n].expr, before.b);
      InOrderArgs(before.b, TranslateScalar(cx, items[n].expr, before.b).value);
      ItemsRead(cx, items[..n], b, args, ordered, [Comma] + (text + tail), [item] + list);
      assert ([Comma] + (text + tail))[1..] == text + tail;
      assert TranslateItems(cx, items, b).value.sql + tail == before.sql + ([Comma] + (text + tail));
      assert forall i :: 0 <= i < n ==> items[..n][i] == items[i];
      assert Listed(cx, items) + list == Listed(cx, items[..n]) + ([item] + list);
    } else {
      assert TranslateItems(cx, items, b).value.sql + tail == text + tail;
      assert Listed(cx, items) == [item];
    }
  }

  lemma ShapedParts(items: seq<Item>, ordered: bool)
    requires items != [] && Shaped(items, ordered)
    ensures Shaped(items[..|items| - 1], ordered) && Shaped([items[|items| - 1]], ordered)
    ensures forall i :: 0 <= i < |items| ==> PlainSuffix(items[i].suffix)
  {
  }

  // ----- what each clause should say -----

  /** The text lists exactly these expressions, in order, without directions. */
  ghost predicate ListsTerms(cx: Context, es: seq<Expr>, ts: seq<SqlTok>, args: seq<Lit>) {
    && (forall k :: 0 <= k < |es| ==> ScalarOk(cx, es[k]))
    && var list := ReadClause(ts, args, false);
       && list.Some? && |list.value| == |es|
       && forall k :: 0 <= k < |es| ==> list.value[k] == ListItem(Resolved(cx, es[k]), false)
  }

  /** The text lists exactly these items, in order, descending where the source says so. */
  ghost predicate ListsOrder(cx: Context, os: seq<OrderItem>, ts: seq<SqlTok>, args: seq<Lit>) {
    && (forall k :: 0 <= k < |os| ==> ScalarOk(cx, os[k].expr))
    && var list := ReadClause(ts, args, true);
       && list.Some? && |list.value| == |os|
       && forall k :: 0 <= k < |os| ==> list.value[k] == ListItem(Resolved(cx, os[k].expr), os[k].descending)
  }

  predicate Opens(ts: seq<SqlTok>, keyword: string) {
    ts != [] && ts[0] == Sym(keyword)
  }

  /** Absent without a tenant and a condition; else WHERE and a condition that means the filter AND the source's. */
  ghost predicate WhereStands(cx: Context, q: Select, tenant: string, ts: seq<SqlTok>, args: seq<Lit>)
    requires q.where_.Some? ==> Accepted(cx, q.where_.value)
  {
    if tenant == "" && q.where_.None? then ts == []
    else
      Opens(ts, "WHERE")
      && forall val :: ReadCondition(ts[1..], args, val) == Some(ClauseMeaning(cx, q, tenant, val))
  }

  ghost predicate GroupStands(cx: Context, q: Select, ts: seq<SqlTok>, args: seq<Lit>) {
    if q.groupBy == [] then ts == [] else Opens(ts, "GROUP BY") && ListsTerms(cx, q.groupBy, ts[1..], args)
  }

  ghost predicate HavingStands(cx: Context, q: Select, ts: seq<SqlTok>, args: seq<Lit>)
    requires q.having.Some? ==> HavingOk(cx, q.having.value)
  {
    if q.having.None? then ts == []
    else
      Opens(ts, "HAVING") && forall val ::
        ReadWhole(ts[1..], HavingReader(args, val)) == Some(HavingMeaning(cx, q.having.value, val))
  }

  ghost predicate OrderStands(cx: Context, q: Select, ts: seq<SqlTok>, args: seq<Lit>) {
    if q.orderBy == [] then ts == [] else Opens(ts, "ORDER BY") && ListsOrder(cx, q.orderBy, ts[1..], args)
  }

  /** Absent without TOP; else LIMIT and one placeholder, bound to TOP's integer. */
  predicate LimitStands(q: Select, ts: seq<SqlTok>, args: seq<Lit>) {
    match q.top
    case None => ts == []
    case Some(top) =>
      && !top.percent && !top.withTies && top.count.IntLit?
      && |ts| == 2 && ts[0] == Sym("LIMIT") && Bound(args, ts[1]) && Arg(args, ts[1]) == LInt(top.count.n)
  }

  datatype Parts = Parts(columns: seq<SqlTok>, condition: seq<SqlTok>, groupBy: seq<SqlTok>, having: seq<SqlTok>,
                         orderBy: seq<SqlTok>, limit: seq<SqlTok>)

  /** The text is those parts, and each says, with these arguments, what the source says. */
  ghost predicate Says(cx: Context, table: string, q: Select, tenant: string, out: Emitted, p: Parts)
    requires q.where_.Some? ==> Accepted(cx, q.where_.value)
    requires q.having.Some? ==> HavingOk(cx, q.having.value)
  {
    && out.sql == [Sym(if q.distinct then "SELECT DISTINCT" else "SELECT")] + p.columns + [Sym("FROM"), Sym(table)]
         + p.condition + p.groupBy + p.having + p.orderBy + p.limit
    && ListsTerms(cx, q.columns, p.columns, out.b.args)
    && WhereStands(cx, q, tenant, p.condition, out.b.args)
    && GroupStands(cx, q, p.groupBy, out.b.args)
    && HavingStands(cx, q, p.having, out.b.args)
    && OrderStands(cx, q, p.orderBy, out.b.args)
    && LimitStands(q, p.limit, out.b.args)
  }

  // ----- each clause says it -----

  lemma PlainItemsList(cx: Context, es: seq<Expr>, b: Binder, args: seq<Lit>)
    requires BinderOk(b) && TranslateItems(cx, PlainItems(es), b).Some?
    requires TranslateItems(cx, PlainItems(es), b).value.b.args <= args
    ensures ListsTerms(cx, es, TranslateItems(cx, PlainItems(es), b).value.sql, args)
  {
    hide ReadItems, TranslateItems, TranslateScalar, ScalarOk;
    var items := PlainItems(es);
    if es == [] {
      NothingTranslates(cx, b);
      assert items == [];
    } else {
      var sql := TranslateItems(cx, items, b).value.sql;
      ItemsRead(cx, items, b, args, false, [], []);
      ItemsAreText(cx, items, b);
      assert sql + [] == sql && Listed(cx, items) + [] == Listed(cx, items);
      forall k | 0 <= k < |es|
        ensures ScalarOk(cx, es[k]) && Listed(cx, items)[k] == ListItem(Resolved(cx, es[k]), false)
      {
        assert items[k] == Item(es[k], []);
      }
    }
  }

  lemma OrderItemsList(cx: Context, os: seq<OrderItem>, b: Binder, args: seq<Lit>)
    requires BinderOk(b) && TranslateItems(cx, OrderItems(os), b).Some?
    requires TranslateItems(cx, OrderItems(os), b).value.b.args <= args
    ensures ListsOrder(cx, os, TranslateItems(cx, OrderItems(os), b).value.sql, args)
  {
    hide ReadItems, TranslateItems, TranslateScalar, ScalarOk;
    var items := OrderItems(os);
    if os == [] {
      NothingTranslates(cx, b);
      assert items == [];
    } else {
      var sql := TranslateItems(cx, items, b).value.sql;
      ItemsRead(cx, items, b, args, true, [], []);
      ItemsAreText(cx, items, b);
      assert sql + [] == sql && Listed(cx, items) + [] == Listed(cx, items);
      forall k | 0 <= k < |os|
        ensures ScalarOk(cx, os[k].expr)
        ensures Listed(cx, items)[k] == ListItem(Resolved(cx, os[k].expr), os[k].descending)
      {
        assert items[k] == Item(os[k].expr, [Sym(if os[k].descending then "DESC" else "ASC")]);
      }
    }
  }

  lemma NothingTranslates(cx: Context, b: Binder)
    ensures TranslateItems(cx, [], b) == Some(Emitted([], b))
  {
  }

  lemma ItemsAreText(cx: Context, items: seq<Item>, b: Binder)
    requires items != [] && TranslateItems(cx, items, b).Some? && BinderOk(b)
    requires forall i :: 0 <= i < |items| ==> ScalarOk(cx, items[i].expr)
    ensures TranslateItems(cx, items, b).value.sql != []
  {
    var n := |items| - 1;
    var before := TranslateItems(cx, items[..n], b).value;
    ScalarIsText(cx, items[n].expr, before.b);
  }

  lemma ScalarIsText(cx: Context, e: Expr, b: Binder)
    requires TranslateScalar(cx, e, b).Some?
    ensures TranslateScalar(cx, e, b).value.sql != []
  {
  }

  lemma LimitSays(q: Select, b: Binder, cx: Context)
    requires BinderOk(b) && LimitClause(q.top, b).Some?
    ensures LimitStands(q, Headed(q.top.Some?, "LIMIT", LimitClause(q.top, b).value.sql),
                        LimitClause(q.top, b).value.b.args)
  {
  }

  /** Arguments once bound stay bound, and every clause starts with a sound binder. */
  lemma AllArgsPersist(c: Clauses)
    requires ClausesInOrder(c)
    ensures BinderOk(c.columns.b) && BinderOk(c.condition.b) && BinderOk(c.groupBy.b) && BinderOk(c.having.b)
            && BinderOk(c.orderBy.b)
    ensures c.columns.b.args <= c.limit.b.args && c.condition.b.args <= c.limit.b.args
            && c.groupBy.b.args <= c.limit.b.args && c.having.b.args <= c.limit.b.args
            && c.orderBy.b.args <= c.limit.b.args
  {
  }

  lemma HeadTail(keyword: string, clause: seq<SqlTok>)
    ensures Opens(Headed(true, keyword, clause), keyword) && Headed(true, keyword, clause)[1..] == clause
  {
  }

  lemma ConditionSays(cx: Context, q: Select, tenant: string, c: Clauses)
    requires TranslateClauses(cx, q, tenant) == Some(c) && (q.where_.Some? ==> PlainOps(q.where_.value))
    ensures q.where_.Some? ==> Accepted(cx, q.where_.value)
    ensures WhereStands(cx, q, tenant, Headed(HasCondition(q, tenant), "WHERE", c.condition.sql), c.limit.b.args)
  {
    hide InOrder, TranslateItems, WhereClause, ReadCondition, PlainOps, Accepted, ClauseMeaning, LimitClause;
    hide HavingClause, ClausesInOrder;
    TranslatedInOrder(cx, q, tenant);
    AllArgsPersist(c);
    ConditionAccepted(cx, q, tenant);
    HeadTail("WHERE", c.condition.sql);
    if HasCondition(q, tenant) {
      forall val
        ensures ReadCondition(c.condition.sql, c.limit.b.args, val) == Some(ClauseMeaning(cx, q, tenant, val))
      {
        ClauseReads(cx, q, tenant, c.columns.b, c.limit.b.args, val);
      }
    }
  }

  lemma ConditionAccepted(cx: Context, q: Select, tenant: string)
    requires TranslateClauses(cx, q, tenant).Some?
    ensures q.where_.Some? ==> Accepted(cx, q.where_.value)
  {
    hide Generated, Accepted;
    assert Generated(cx, Some(""), q, tenant).Some? by {
      GeneratedSome(cx, q, tenant);
    }
    GeneratesIff(cx, Some(""), q, tenant);
  }

  lemma GeneratedSome(cx: Context, q: Select, tenant: string)
    requires TranslateClauses(cx, q, tenant).Some?
    ensures Generated(cx, Some(""), q, tenant).Some?
  {
  }

  lemma HavingSays(cx: Context, q: Select, tenant: string, c: Clauses)
    requires TranslateClauses(cx, q, tenant) == Some(c) && (q.having.Some? ==> HavingOk(cx, q.having.value))
    ensures HavingStands(cx, q, Headed(q.having.Some?, "HAVING", c.having.sql), c.limit.b.args)
  {
    hide InOrder, TranslateItems, WhereClause, ReadWhole, HavingOk, LimitClause, ClausesInOrder;
    hide TranslateHaving, HavingTree, Sound;
    TranslatedInOrder(cx, q, tenant);
    AllArgsPersist(c);
    HeadTail("HAVING", c.having.sql);
    if q.having.Some? {
      var e := q.having.value;
      forall val
        ensures ReadWhole(c.having.sql, HavingReader(c.limit.b.args, val)) == Some(HavingMeaning(cx, e, val))
      {
        HavingText(cx, e, c.groupBy.b, val);
        HavingSound(cx, e, c.groupBy.b, c.limit.b.args, val);
        WholeReads(HavingReader(c.limit.b.args, val), HavingTree(cx, e, c.groupBy.b, val));
      }
    }
  }

  /** No comparison operator of WHERE or HAVING is spelled like a keyword. */
  predicate Readable(cx: Context, q: Select) {
    (q.where_.Some? ==> PlainOps(q.where_.value)) && (q.having.Some? ==> HavingOk(cx, q.having.value))
  }

  /**
   * A generated statement is SELECT, with DISTINCT exactly when the source has it, and the clauses of the
   * source in order, each of which reads back, with the final arguments, as the source's: the columns and
   * groups one by one, WHERE and HAVING with their truth values under every valuation, the order items with
   * their directions, and LIMIT bound to TOP's integer.
   */
  lemma StatementReads(cx: Context, table: Option<string>, q: Select, tenant: string)
    requires Generated(cx, table, q, tenant).Some? && Readable(cx, q)
    ensures q.where_.Some? ==> Accepted(cx, q.where_.value)
    ensures exists p :: Says(cx, table.value, q, tenant, Generated(cx, table, q, tenant).value, p)
  {
    hide TranslateItems, WhereClause, HavingClause, InOrder, ClausesInOrder, LimitClause, PlainOps, Accepted, HavingOk;
    hide ListsTerms, ListsOrder, WhereStands, HavingStands, LimitStands, Headed;
    var c := TranslateClauses(cx, q, tenant).value;
    TranslatedInOrder(cx, q, tenant);
    AllArgsPersist(c);
    ConditionSays(cx, q, tenant, c);
    HavingSays(cx, q, tenant, c);
    PlainItemsList(cx, q.columns, Binder([], 0), c.limit.b.args);
    PlainItemsList(cx, q.groupBy, c.condition.b, c.limit.b.args);
    OrderItemsList(cx, q.orderBy, c.having.b, c.limit.b.args);
    LimitSays(q, c.orderBy.b, cx);
    HeadTail("GROUP BY", c.groupBy.sql);
    HeadTail("ORDER BY", c.orderBy.sql);
    AbsentHead("GROUP BY", c.groupBy.sql);
    AbsentHead("ORDER BY", c.orderBy.sql);
    var p := Parts(c.columns.sql, Headed(HasCondition(q, tenant), "WHERE", c.condition.sql),
                   Headed(q.groupBy != [], "GROUP BY", c.groupBy.sql), Headed(q.having.Some?, "HAVING", c.having.sql),
                   Headed(q.orderBy != [], "ORDER BY", c.orderBy.sql), Headed(q.top.Some?, "LIMIT", c.limit.sql));
    assert Says(cx, table.value, q, tenant, Generated(cx, table, q, tenant).value, p);
  }

  lemma AbsentHead(keyword: string, clause: seq<SqlTok>)
    ensures Headed(false, keyword, clause) == []
  {
  }

  // ----- generating it -----

  method GenerateAdaptedSQL(cx: Context, table: Option<string>, q: Select, tenant: string) returns (r: Option<Emitted>)
    ensures r == Generated(cx, table, q, tenant)
    ensures r.Some? <==> table.Some? && Generable(cx, q)
    ensures r.Some? ==> Numbered(r.value.sql, 0, |r.value.b.args|)
    ensures r.Some? ==> r.value.b.args == StatementLits(cx, q, tenant)
    ensures r.Some? && Readable(cx, q) ==>
              (q.where_.Some? ==> Accepted(cx, q.where_.value))
              && exists p :: Says(cx, table.value, q, tenant, r.value, p)
  {
    hide TranslateItems, TranslateScalar, TranslateWhere, TranslateHaving, Numbered, StatementLits, Generable;
    hide Says, Accepted, Readable;
    GeneratesIff(cx, table, q, tenant);
    if Generated(cx, table, q, tenant).Some? {
      StatementIsNumbered(cx, table, q, tenant);
      StatementBindsItsLiterals(cx, table, q, tenant);
      if Readable(cx, q) {
        StatementReads(cx, table, q, tenant);
      }
    }
    if table.None? {
      return None;
    }
    var cols := EmitItems(cx, PlainItems(q.columns), Binder([], 0));
    if cols.None? {
      return None;
    }
    var keyword := SelectKeyword(q.distinct);
    var condition := TenantFilter(tenant, cols.value.b);
    if q.where_.Some? {
      var w := TranslateWhere(cx, q.where_.value, condition.b);
      if w.None? {
        return None;
      }
      condition := Emitted(condition.sql + (if tenant == "" then [] else [KAnd]) + ([LP] + w.value.sql + [RP]),
                           w.value.b);
    }
    var group := EmitItems(cx, PlainItems(q.groupBy), condition.b);
    if group.None? {
      return None;
    }
    var sql := [keyword] + cols.value.sql + [Sym("FROM"), Sym(table.value)]
      + Headed(tenant != "" || q.where_.Some?, "WHERE", condition.sql)
      + Headed(q.groupBy != [], "GROUP BY", group.value.sql);
    var having := Emitted([], group.value.b);
    if q.having.Some? {
      var h := TranslateHaving(cx, q.having.value, group.value.b);
      if h.None? {
        return None;
      }
      having := h.value;
    }
    var order := EmitItems(cx, OrderItems(q.orderBy), having.b);
    if order.None? {
      return None;
    }
    sql := sql + Headed(q.having.Some?, "HAVING", having.sql) + Headed(q.orderBy != [], "ORDER BY", order.value.sql);
    var limit := Emitted([], order.value.b);
    if q.top.Some? {
      var n := TopCount(q.top.value);
      if n.None? {
        return None;
      }
      limit := Bind(order.value.b, LInt(n.value));
    }
    sql := sql + Headed(q.top.Some?, "LIMIT", limit.sql);
    assert TranslateClauses(cx, q, tenant)
      == Some(Clauses(cols.value, condition, group.value, having, order.value, limit));
    return Some(Emitted(sql, limit.b));
  }
}
