/** The paged listing of registries: the WHERE builder with its numbered placeholders, the ordered
    LIMIT/OFFSET query, and the clamping and 64-bit offset arithmetic of the service.  The listing
    of servers clamps, multiplies and orders in the same way.

    The two queries see the same table.  Columns are compared through their rank in the database's
    collation; like is ILIKE. */
module Paging {
  import opened Text

  datatype Row = Row(
    id: nat, createdAt: int, updatedAt: int, nameRank: int, kindRank: int,
    name: string, kind: string, active: bool, isDefault: bool, deleted: bool)

  datatype Column = CreatedAt | UpdatedAt | Name | Kind

  datatype Filter = Filter(
    kind: string, active: Option<bool>, isDefault: Option<bool>, search: string,
    limit: int, offset: int, sortBy: string, sortDesc: bool)

  type Like = (string, string) -> bool

  /** registrySortColumn: a whitelist, with created_at for anything else. */
  function SortColumn(s: string): Column {
    if s == "updated_at" then UpdatedAt else if s == "name" then Name else if s == "type" then Kind else CreatedAt
  }

  function Key(r: Row, column: Column): int {
    match column
    case CreatedAt => r.createdAt
    case UpdatedAt => r.updatedAt
    case Name => r.nameRank
    case Kind => r.kindRank
  }

  // ---------------------------------------------------------------- the order

  /** ORDER BY column dir, id: the direction applies to the column only. */
  predicate Before(a: Row, b: Row, column: Column, desc: bool) {
    if Key(a, column) == Key(b, column) then a.id < b.id
    else if desc then Key(a, column) > Key(b, column)
    else Key(a, column) < Key(b, column)
  }

  ghost predicate InOrder(s: seq<Row>, column: Column, desc: bool) {
    forall i, j :: 0 <= i < j < |s| ==> Before(s[i], s[j], column, desc)
  }

  ghost predicate DistinctIds(s: seq<Row>) {
    forall i, j :: 0 <= i < j < |s| ==> s[i].id != s[j].id
  }

  function InsertRow(r: Row, s: seq<Row>, column: Column, desc: bool): (t: seq<Row>)
    ensures |t| == |s| + 1 && multiset(t) == multiset(s) + multiset{r}
  {
    if s == [] || Before(r, s[0], column, desc) then [r] + s
    else
      assert s == [s[0]] + s[1..];
      [s[0]] + InsertRow(r, s[1..], column, desc)
  }

  function Ordered(s: seq<Row>, column: Column, desc: bool): (t: seq<Row>)
    ensures |t| == |s| && multiset(t) == multiset(s)
  {
    if s == [] then []
    else
      assert s == [s[0]] + s[1..];
      InsertRow(s[0], Ordered(s[1..], column, desc), column, desc)
  }

  lemma {:induction false} InsertKeepsOrder(r: Row, s: seq<Row>, column: Column, desc: bool)
    requires InOrder(s, column, desc) && forall i :: 0 <= i < |s| ==> s[i].id != r.id
    ensures InOrder(InsertRow(r, s, column, desc), column, desc)
  {
    var t := InsertRow(r, s, column, desc);
    if s != [] && !Before(r, s[0], column, desc) {
      InsertKeepsOrder(r, s[1..], column, desc);
      var rest := InsertRow(r, s[1..], column, desc);
      forall j | 0 <= j < |rest| ensures Before(s[0], rest[j], column, desc) {
        assert rest[j] in multiset(rest);
        assert rest[j] == r || rest[j] in s[1..];
      }
    }
  }

  lemma {:induction false} OrderedIsInOrder(s: seq<Row>, column: Column, desc: bool)
    requires DistinctIds(s)
    ensures InOrder(Ordered(s, column, desc), column, desc)
  {
    if s != [] {
      OrderedIsInOrder(s[1..], column, desc);
      var rest := Ordered(s[1..], column, desc);
      forall i | 0 <= i < |rest| ensures rest[i].id != s[0].id {
        assert rest[i] in multiset(rest);
        var j :| 1 <= j < |s| && s[j] == rest[i];
      }
      InsertKeepsOrder(s[0], rest, column, desc);
    }
  }

  lemma SameHead(a: seq<Row>, b: seq<Row>, column: Column, desc: bool)
    requires InOrder(a, column, desc) && InOrder(b, column, desc) && a != [] && multiset(a) == multiset(b)
    ensures b != [] && a[0] == b[0]
  {
    assert a[0] in multiset(b);
    var i :| 0 <= i < |b| && b[i] == a[0];
    assert b[0] in multiset(a);
    var j :| 0 <= j < |a| && a[j] == b[0];
    assert i == 0 || Before(b[0], b[i], column, desc);
    assert j == 0 || Before(a[0], a[j], column, desc);
  }

  /** The secondary key makes the order total: one listing, whatever way the rows are stored or the
      database sorts them. */
  lemma {:induction false} OrderIsUnique(a: seq<Row>, b: seq<Row>, column: Column, desc: bool)
    requires InOrder(a, column, desc) && InOrder(b, column, desc) && multiset(a) == multiset(b)
    ensures a == b
  {
    if a == [] {
      assert |multiset(b)| == |b|;
    } else {
      SameHead(a, b, column, desc);
      assert a == [a[0]] + a[1..] && b == [b[0]] + b[1..];
      assert multiset(a[1..]) == multiset(a) - multiset{a[0]};
      assert multiset(b[1..]) == multiset(b) - multiset{b[0]};
      OrderIsUnique(a[1..], b[1..], column, desc);
    }
  }

  // ---------------------------------------------------------------- the filter

  predicate Matches(f: Filter, r: Row, like: Like) {
    && !r.deleted
    && (f.kind != "" ==> r.kind == f.kind)
    && (f.active.Some? ==> r.active == f.active.value)
    && (f.isDefault.Some? ==> r.isDefault == f.isDefault.value)
    && (f.search != "" ==> like("%" + f.search + "%", r.name))
  }

  function Filtered(table: seq<Row>, f: Filter, like: Like): (s: seq<Row>) {
    if table == [] then []
    else (if Matches(f, table[0], like) then [table[0]] else []) + Filtered(table[1..], f, like)
  }

  /** The filter keeps every matching row, each once. */
  lemma {:induction false} FilteredKeeps(table: seq<Row>, f: Filter, like: Like)
    requires DistinctIds(table)
    ensures DistinctIds(Filtered(table, f, like))
    ensures forall r :: r in Filtered(table, f, like) <==> r in table && Matches(f, r, like)
  {
    if table != [] {
      FilteredKeeps(table[1..], f, like);
      assert forall r :: r in table <==> r == table[0] || r in table[1..];
      assert forall r :: r in table[1..] ==> r.id != table[0].id;
    }
  }

  datatype Arg = Str(s: string) | Flag(b: bool) | Num(n: int)

  /** A condition refers to the argument of its placeholder, counted from 1. */
  datatype Cond = NotDeleted | KindIs(at: nat) | ActiveIs(at: nat) | DefaultIs(at: nat) | NameLike(at: nat)

  predicate Bound(c: Cond, args: seq<Arg>) {
    c.NotDeleted? || 1 <= c.at <= |args|
  }

  predicate Eval(c: Cond, args: seq<Arg>, r: Row, like: Like)
    requires Bound(c, args)
  {
    match c
    case NotDeleted => !r.deleted
    case KindIs(at) => args[at - 1] == Str(r.kind)
    case ActiveIs(at) => args[at - 1] == Flag(r.active)
    case DefaultIs(at) => args[at - 1] == Flag(r.isDefault)
    case NameLike(at) => args[at - 1].Str? && like(args[at - 1].s, r.name)
  }

  ghost predicate Means(conds: seq<Cond>, args: seq<Arg>, f: Filter, like: Like) {
    && (forall c :: c in conds ==> Bound(c, args))
    && (forall r :: (forall c :: c in conds ==> Eval(c, args, r, like)) <==> Matches(f, r, like))
  }

  /** Appending a condition on a fresh last argument conjoins it. */
  lemma Conjoined(conds: seq<Cond>, args: seq<Arg>, f: Filter, c: Cond, arg: Arg, f': Filter, like: Like)
    requires Means(conds, args, f, like) && !c.NotDeleted? && c.at == |args| + 1
    requires forall r :: Matches(f', r, like) <==> Matches(f, r, like) && Eval(c, args + [arg], r, like)
    ensures Means(conds + [c], args + [arg], f', like)
  {
    var conds', args' := conds + [c], args + [arg];
    forall d | d in conds' ensures Bound(d, args') {
      if d in conds {
        assert Bound(d, args);
      }
    }
    forall r ensures (forall d :: d in conds' ==> Eval(d, args', r, like)) <==> Matches(f', r, like) {
      assert forall d :: d in conds ==> Eval(d, args', r, like) == Eval(d, args, r, like);
      assert forall d :: d in conds' <==> d in conds || d == c;
    }
  }

  const ANY := Filter("", None, None, "", 0, 0, "", false)

  lemma KindConjoined(conds: seq<Cond>, args: seq<Arg>, f: Filter, kind: string, like: Like)
    requires Means(conds, args, f, like) && f.kind == "" && kind != ""
    ensures Means(conds + [KindIs(|args| + 1)], args + [Str(kind)], f.(kind := kind), like)
  {
    Conjoined(conds, args, f, KindIs(|args| + 1), Str(kind), f.(kind := kind), like);
  }

  lemma ActiveConjoined(conds: seq<Cond>, args: seq<Arg>, f: Filter, active: bool, like: Like)
    requires Means(conds, args, f, like) && f.active == None
    ensures Means(conds + [ActiveIs(|args| + 1)], args + [Flag(active)], f.(active := Some(active)), like)
  {
    Conjoined(conds, args, f, ActiveIs(|args| + 1), Flag(active), f.(active := Some(active)), like);
  }

  lemma DefaultConjoined(conds: seq<Cond>, args: seq<Arg>, f: Filter, isDefault: bool, like: Like)
    requires Means(conds, args, f, like) && f.isDefault == None
    ensures Means(conds + [DefaultIs(|args| + 1)], args + [Flag(isDefault)], f.(isDefault := Some(isDefault)), like)
  {
    Conjoined(conds, args, f, DefaultIs(|args| + 1), Flag(isDefault), f.(isDefault := Some(isDefault)), like);
  }

  lemma SearchConjoined(conds: seq<Cond>, args: seq<Arg>, f: Filter, search: string, like: Like)
    requires Means(conds, args, f, like) && f.search == "" && search != ""
    ensures Means(conds + [NameLike(|args| + 1)], args + [Str("%" + search + "%")], f.(search := search), like)
  {
    Conjoined(conds, args, f, NameLike(|args| + 1), Str("%" + search + "%"), f.(search := search), like);
  }

  lemma NoFilter(like: Like)
    ensures Means([NotDeleted], [], ANY, like)
  {
    forall r ensures (forall c :: c in [NotDeleted] ==> Eval(c, [], r, like)) <==> Matches(ANY, r, like) {
      assert NotDeleted in [NotDeleted];
    }
  }

  /** The placeholder of a condition is the number of arguments once its own has been appended. */
  method BuildWhere(f: Filter, ghost like: Like) returns (conds: seq<Cond>, args: seq<Arg>)
    ensures Means(conds, args, f, like)
  {
    conds, args := [NotDeleted], [];
    ghost var g := ANY;
    NoFilter(like);
    if f.kind != "" {
      KindConjoined(conds, args, g, f.kind, like);
      args := args + [Str(f.kind)];
      conds := conds + [KindIs(|args|)];
      g := g.(kind := f.kind);
    }
    assert Means(conds, args, g, like);
    if f.active.Some? {
      ActiveConjoined(conds, args, g, f.active.value, like);
      args := args + [Flag(f.active.value)];
      conds := conds + [ActiveIs(|args|)];
      g := g.(active := f.active);
    }
    assert Means(conds, args, g, like);
    if f.isDefault.Some? {
      DefaultConjoined(conds, args, g, f.isDefault.value, like);
      args := args + [Flag(f.isDefault.value)];
      conds := conds + [DefaultIs(|args|)];
      g := g.(isDefault := f.isDefault);
    }
    assert Means(conds, args, g, like);
    if f.search != "" {
      SearchConjoined(conds, args, g, f.search, like);
      args := args + [Str("%" + f.search + "%")];
      conds := conds + [NameLike(|args|)];
      g := g.(search := f.search);
    }
    SameMeaning(conds, args, g, f, like);
  }

  lemma SameMeaning(conds: seq<Cond>, args: seq<Arg>, f: Filter, g: Filter, like: Like)
    requires Means(conds, args, f, like)
    requires f.kind == g.kind && f.active == g.active && f.isDefault == g.isDefault && f.search == g.search
    ensures Means(conds, args, g, like)
  {
    assert forall r :: Matches(f, r, like) <==> Matches(g, r, like);
  }

  // ---------------------------------------------------------------- one page

  /** LIMIT limit OFFSET offset. */
  function Slice(s: seq<Row>, offset: nat, limit: nat): seq<Row> {
    if offset >= |s| then [] else if offset + limit <= |s| then s[offset..offset + limit] else s[offset..]
  }

  function Listing(table: seq<Row>, f: Filter, like: Like): seq<Row> {
    Ordered(Filtered(table, f, like), SortColumn(f.sortBy), f.sortDesc)
  }

  datatype Listed = Listed(items: seq<Row>, total: nat) | ListFailed

  /** A negative offset is an SQL error, but an empty count returns before the page query. */
  function ListAt(all: seq<Row>, offset: int, limit: int): Listed {
    if |all| == 0 then Listed([], 0)
    else if offset < 0 || limit < 0 then ListFailed
    else Listed(Slice(all, offset, limit), |all|)
  }

  function ListRows(table: seq<Row>, f: Filter, like: Like): Listed {
    ListAt(Listing(table, f, like), f.offset, f.limit)
  }

  lemma {:induction false} SelectedIsFiltered(table: seq<Row>, conds: seq<Cond>, args: seq<Arg>, f: Filter, like: Like)
    requires Means(conds, args, f, like)
    ensures Selected(table, conds, args, like) == Filtered(table, f, like)
  {
    if table != [] {
      SelectedIsFiltered(table[1..], conds, args, f, like);
      assert (forall c :: c in conds ==> Eval(c, args, table[0], like)) <==> Matches(f, table[0], like);
    }
  }

  /** What the database selects for the built conditions. */
  function Selected(table: seq<Row>, conds: seq<Cond>, args: seq<Arg>, like: Like): seq<Row>
    requires forall c :: c in conds ==> Bound(c, args)
  {
    if table == [] then []
    else
      (if forall c :: c in conds ==> Eval(c, args, table[0], like) then [table[0]] else [])
      + Selected(table[1..], conds, args, like)
  }

  lemma {:induction false} MoreArgumentsSelectTheSame(
    table: seq<Row>, conds: seq<Cond>, args: seq<Arg>, more: seq<Arg>, like: Like)
    requires forall c :: c in conds ==> Bound(c, args)
    ensures forall c :: c in conds ==> Bound(c, args + more)
    ensures Selected(table, conds, args + more, like) == Selected(table, conds, args, like)
  {
    if table != [] {
      MoreArgumentsSelectTheSame(table[1..], conds, args, more, like);
      assert forall c :: c in conds ==> Eval(c, args + more, table[0], like) == Eval(c, args, table[0], like);
    }
  }

  method List(table: seq<Row>, f: Filter, like: Like) returns (r: Listed)
    ensures r == ListRows(table, f, like)
  {
    var conds, args := BuildWhere(f, like);
    SelectedIsFiltered(table, conds, args, f, like);
    var total := |Selected(table, conds, args, like)|;
    if total == 0 {
      return Listed([], 0);
    }
    ghost var whereArgs := args;
    args := args + [Num(f.limit)];
    var limitPos := |args|;
    args := args + [Num(f.offset)];
    var offsetPos := |args|;
    assert args == whereArgs + [Num(f.limit), Num(f.offset)];
    MoreArgumentsSelectTheSame(table, conds, whereArgs, [Num(f.limit), Num(f.offset)], like);
    assert forall c :: c in conds ==> Bound(c, args);
    var limit, offset := args[limitPos - 1].n, args[offsetPos - 1].n;
    if offset < 0 || limit < 0 {
      return ListFailed;
    }
    var items := Slice(Ordered(Selected(table, conds, args, like), SortColumn(f.sortBy), f.sortDesc), offset, limit);
    return Listed(items, total);
  }

  // ---------------------------------------------------------------- the service

  const MAX_INT64: int := 0x7FFF_FFFF_FFFF_FFFF
  const TWO64: int := 0x1_0000_0000_0000_0000

  predicate IsInt64(n: int) { -MAX_INT64 - 1 <= n <= MAX_INT64 }

  /** Two's-complement wrap-around. */
  function Wrap64(n: int): (w: int)
    ensures IsInt64(w) && (IsInt64(n) <==> w == n) && (w - n) % TWO64 == 0
  {
    (n + MAX_INT64 + 1) % TWO64 - MAX_INT64 - 1
  }

  const DEFAULT_PAGE_SIZE := 20
  const MAX_PAGE_SIZE := 100

  function ClampPage(page: int): int { if page < 1 then 1 else page }

  function ClampSize(size: int): int {
    if size < 1 then DEFAULT_PAGE_SIZE else if size > MAX_PAGE_SIZE then MAX_PAGE_SIZE else size
  }

  function TotalPages(total: nat, size: nat): nat
    requires size > 0
  {
    if total > 0 then (total + size - 1) / size else 0
  }

  datatype Response = Page(items: seq<Row>, page: int, size: int, total: nat, totalPages: nat) | Failed

  function PageOf(listed: Listed, page: int, size: nat): Response
    requires size > 0
  {
    match listed
    case ListFailed => Failed
    case Listed(items, total) => Page(items, page, size, total, TotalPages(total, size))
  }

  /** The page that the request asks for, with unbounded arithmetic. */
  function ExactPage(all: seq<Row>, page: int, size: int): Response {
    var p, n := ClampPage(page), ClampSize(size);
    PageOf(ListAt(all, (p - 1) * n, n), p, n)
  }

  /** A page of the listing with the offset wrapped to 64 bits. */
  function WrappedPage(all: seq<Row>, page: int, size: int): Response {
    var p, n := ClampPage(page), ClampSize(size);
    PageOf(ListAt(all, Wrap64((p - 1) * n), n), p, n)
  }

  lemma WrappedIs(all: seq<Row>, page: int, size: int, p: int, n: nat, offset: int)
    requires p == ClampPage(page) && n == ClampSize(size) && offset == Wrap64((p - 1) * n)
    ensures WrappedPage(all, page, size) == PageOf(ListAt(all, offset, n), p, n)
  {}

  /** ListRegistries once its filter has been validated. */
  method ListRegistries(table: seq<Row>, f: Filter, page: int, pageSize: int, like: Like) returns (r: Response)
    requires IsInt64(page) && IsInt64(pageSize)
    ensures r == WrappedPage(Listing(table, f, like), page, pageSize)
  {
    var p := page;
    if p < 1 {
      p := 1;
    }
    var size := pageSize;
    if size < 1 {
      size := DEFAULT_PAGE_SIZE;
    }
    if size > MAX_PAGE_SIZE {
      size := MAX_PAGE_SIZE;
    }
    assert p == ClampPage(page) && size == ClampSize(pageSize);
    var offset := Wrap64((p - 1) * size);
    var g := f.(limit := size, offset := offset);
    SameListing(table, f, g, like);
    var listed := List(table, g, like);
    WrappedIs(Listing(table, f, like), page, pageSize, p, size, offset);
    assert listed == ListAt(Listing(table, f, like), offset, size);
    if listed.ListFailed? {
      return Failed;
    }
    return Page(listed.items, p, size, listed.total, TotalPages(listed.total, size));
  }

  lemma {:induction false} SameListing(table: seq<Row>, f: Filter, g: Filter, like: Like)
    requires g == f.(limit := g.limit, offset := g.offset)
    ensures Filtered(table, g, like) == Filtered(table, f, like)
  {
    if table != [] {
      SameListing(table[1..], f, g, like);
      assert Matches(g, table[0], like) == Matches(f, table[0], like);
    }
  }

  // ---------------------------------------------------------------- what paging promises

  /** The items of pages 1..k in a row. */
  function FirstPages(all: seq<Row>, k: nat, size: int): seq<Row> {
    if k == 0 then []
    else
      ExactItems(all, k, size);
      FirstPages(all, k - 1, size) + ExactPage(all, k, size).items
  }

  lemma TotalPagesBounds(total: nat, size: nat)
    requires size > 0 && total > 0
    ensures (TotalPages(total, size) - 1) * size < total <= TotalPages(total, size) * size
  {
    var q, r := (total + size - 1) / size, (total + size - 1) % size;
    assert total + size - 1 == q * size + r;
  }

  lemma NextSlice(all: seq<Row>, offset: nat, n: nat)
    ensures
      (if offset <= |all| then all[..offset] else all) + Slice(all, offset, n)
      == if offset + n <= |all| then all[..offset + n] else all
  {
    if offset + n <= |all| {
      assert all[..offset] + all[offset..offset + n] == all[..offset + n];
    } else if offset < |all| {
      assert all[..offset] + all[offset..] == all;
    }
  }

  lemma ExactItems(all: seq<Row>, page: nat, size: int)
    requires page >= 1
    ensures (page - 1) * ClampSize(size) >= 0
    ensures ExactPage(all, page, size).Page?
    ensures ExactPage(all, page, size).items == Slice(all, (page - 1) * ClampSize(size), ClampSize(size))
  {
    Scale(0, page - 1, ClampSize(size));
  }

  lemma {:induction false} FirstPagesArePrefix(all: seq<Row>, k: nat, size: int)
    ensures FirstPages(all, k, size) == if k * ClampSize(size) <= |all| then all[..k * ClampSize(size)] else all
  {
    var n := ClampSize(size);
    if k > 0 {
      FirstPagesArePrefix(all, k - 1, size);
      ExactItems(all, k, size);
      var offset := (k - 1) * n;
      assert k * n == offset + n;
      NextSlice(all, offset, n);
    }
  }

  /** Pages 1..TotalPages, one after the other, are the whole listing, so with distinct ids no row
      is lost or repeated. */
  lemma PagesCoverListing(all: seq<Row>, size: int)
    ensures FirstPages(all, TotalPages(|all|, ClampSize(size)), size) == all
  {
    var n := ClampSize(size);
    FirstPagesArePrefix(all, TotalPages(|all|, n), size);
    if |all| > 0 {
      TotalPagesBounds(|all|, n);
    }
  }

  lemma SliceSizes(total: nat, offset: nat, n: nat, all: seq<Row>)
    requires total == |all| && n > 0
    ensures offset + n <= total ==> |Slice(all, offset, n)| == n
    ensures offset < total <= offset + n ==> 1 <= |Slice(all, offset, n)| <= n
    ensures offset >= total ==> Slice(all, offset, n) == []
  {}

  /** A page before the last is full, the last is not empty, and everything after it is. */
  lemma PageSizes(all: seq<Row>, page: int, size: int)
    requires page >= 1
    ensures
      var r := ExactPage(all, page, size);
      && r.Page? && 1 <= r.size <= 100
      && (page < r.totalPages ==> |r.items| == r.size)
      && (page == r.totalPages ==> 1 <= |r.items| <= r.size)
      && (page > r.totalPages ==> r.items == [])
  {
    var n := ClampSize(size);
    var pages := TotalPages(|all|, n);
    var offset := (page - 1) * n;
    ExactItems(all, page, size);
    SliceSizes(|all|, offset, n, all);
    if |all| > 0 {
      TotalPagesBounds(|all|, n);
      PagePosition(page, pages, n, |all|);
    }
  }

  lemma PagePosition(page: nat, pages: nat, n: nat, total: nat)
    requires page >= 1 && n > 0 && (pages - 1) * n < total <= pages * n
    ensures page < pages ==> (page - 1) * n + n <= total
    ensures page == pages ==> (page - 1) * n < total <= (page - 1) * n + n
    ensures page > pages ==> (page - 1) * n >= total
  {
    assert page * n == (page - 1) * n + n;
    if page < pages {
      Scale(page, pages - 1, n);
    } else if page > pages {
      Scale(pages, page - 1, n);
    }
  }

  lemma Scale(a: int, b: int, n: nat)
    requires a <= b
    ensures a * n <= b * n
  {}

  lemma SameSliceIff(all: seq<Row>, exact: nat, offset: int, n: nat)
    requires n > 0 && (exact <= MAX_INT64 ==> offset == exact) && (exact > MAX_INT64 ==> exact >= |all|)
    ensures ListAt(all, offset, n) == ListAt(all, exact, n) <==> all == [] || exact <= MAX_INT64 || offset >= |all|
  {
    if all != [] && exact > MAX_INT64 && 0 <= offset < |all| {
      assert Slice(all, offset, n) != [];
    }
  }

  /** The reply is the page asked for exactly when nothing matches, or the offset fits in 64 bits,
      or the wrapped offset happens to lie past the end as well. */
  lemma WrappedPageIsExactIff(all: seq<Row>, page: int, size: int)
    requires IsInt64(page) && IsInt64(|all|)
    ensures
      var exact := (ClampPage(page) - 1) * ClampSize(size);
      WrappedPage(all, page, size) == ExactPage(all, page, size)
      <==> all == [] || exact <= MAX_INT64 || Wrap64(exact) >= |all|
  {
    var p, n := ClampPage(page), ClampSize(size);
    var exact := (p - 1) * n;
    Scale(0, p - 1, n);
    SameSliceIff(all, exact, Wrap64(exact), n);
    SamePageIff(ListAt(all, Wrap64(exact), n), ListAt(all, exact, n), p, n);
  }

  lemma SamePageIff(a: Listed, b: Listed, page: int, size: nat)
    requires size > 0
    ensures PageOf(a, page, size) == PageOf(b, page, size) <==> a == b
  {}

  /** A far-away page that shows the first rows again. */
  lemma FarPageShowsFirstRows(all: seq<Row>)
    requires all != []
    ensures
      var page := 0x4000_0000_0000_0001;
      && IsInt64(page)
      && ExactPage(all, page, 100).items == Slice(all, 0x4000_0000_0000_0000 * 100, 100)
      && WrappedPage(all, page, 100).Page?
      && WrappedPage(all, page, 100).items == ExactPage(all, 1, 100).items != []
  {
    assert 0x4000_0000_0000_0000 * 100 == 25 * TWO64;
    assert (25 * TWO64 + MAX_INT64 + 1) % TWO64 == MAX_INT64 + 1;
  }

  /** Column by column: sorted by the column that was asked for, or by the time of creation for any
      other text, downwards or upwards as asked; rows with equal values always by ascending id. */
  predicate Precedes(sortBy: string, desc: bool, a: Row, b: Row) {
    var (x, y) :=
      if sortBy == "updated_at" then (a.updatedAt, b.updatedAt)
      else if sortBy == "name" then (a.nameRank, b.nameRank)
      else if sortBy == "type" then (a.kindRank, b.kindRank)
      else (a.createdAt, b.createdAt);
    (if desc then x >= y else x <= y) && (x == y ==> a.id < b.id)
  }

  ghost predicate Sequenced(rows: seq<Row>, sortBy: string, desc: bool) {
    forall i, j :: 0 <= i < j < |rows| ==> Precedes(sortBy, desc, rows[i], rows[j])
  }

  lemma PrecedesIsBefore(sortBy: string, desc: bool, a: Row, b: Row)
    ensures Precedes(sortBy, desc, a, b) <==> Before(a, b, SortColumn(sortBy), desc)
  {}

  lemma ListingIsSorted(table: seq<Row>, f: Filter, like: Like, i: nat, j: nat)
    requires DistinctIds(table) && i < j < |Listing(table, f, like)|
    ensures Precedes(f.sortBy, f.sortDesc, Listing(table, f, like)[i], Listing(table, f, like)[j])
  {
    FilteredKeeps(table, f, like);
    OrderedIsInOrder(Filtered(table, f, like), SortColumn(f.sortBy), f.sortDesc);
    assert Before(Listing(table, f, like)[i], Listing(table, f, like)[j], SortColumn(f.sortBy), f.sortDesc);
  }

  /** What a reply says of itself: the page and the size asked for, 1 for a page below 1, 20 for a size
      below 1, 100 for one above 100; the number of all matches and of the pages they fill. */
  lemma ReplyDescribesItself(all: seq<Row>, page: int, size: int)
    requires WrappedPage(all, page, size).Page?
    ensures
      var r := WrappedPage(all, page, size);
      && r.page == (if page < 1 then 1 else page)
      && r.size == (if size < 1 then 20 else if size > 100 then 100 else size)
      && r.total == |all| && |r.items| <= r.size
      && (r.totalPages - 1) * r.size < r.total <= r.totalPages * r.size
  {
    if |all| > 0 {
      TotalPagesBounds(|all|, ClampSize(size));
    }
  }

  /** Everything together, for a table with distinct ids: the pages list each matching row exactly
      once and in the order asked for, and no other order or choice of rows would do. */
  lemma PagesListTheMatches(table: seq<Row>, f: Filter, size: int, like: Like, other: seq<Row>)
    requires DistinctIds(table)
    ensures
      var all := Listing(table, f, like);
      var shown := FirstPages(all, TotalPages(|all|, ClampSize(size)), size);
      && Sequenced(shown, f.sortBy, f.sortDesc)
      && (forall r :: r in shown <==> r in table && Matches(f, r, like))
      && (Sequenced(other, f.sortBy, f.sortDesc) && multiset(other) == multiset(shown) ==> other == shown)
  {
    var all := Listing(table, f, like);
    var matching := Filtered(table, f, like);
    FilteredKeeps(table, f, like);
    OrderedIsInOrder(matching, SortColumn(f.sortBy), f.sortDesc);
    PagesCoverListing(all, size);
    forall r ensures r in all <==> r in matching {
      assert r in all <==> r in multiset(all);
      assert r in matching <==> r in multiset(matching);
    }
    forall i, j | 0 <= i < j < |all| ensures Precedes(f.sortBy, f.sortDesc, all[i], all[j]) {
      ListingIsSorted(table, f, like, i, j);
    }
    if Sequenced(other, f.sortBy, f.sortDesc) && multiset(other) == multiset(all) {
      forall i, j | 0 <= i < j < |other| ensures Before(other[i], other[j], SortColumn(f.sortBy), f.sortDesc) {
        PrecedesIsBefore(f.sortBy, f.sortDesc, other[i], other[j]);
      }
      OrderIsUnique(other, all, SortColumn(f.sortBy), f.sortDesc);
    }
  }
}
