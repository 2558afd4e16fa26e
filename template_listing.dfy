/**
 * `GET /template/tag?tag=..&sortby=..`: one page of a tag's association rows
 * from a local secondary index, newest or most-copied first, then the
 * templates they point to, fetched in one batch and put back into
 * association order. The two store calls are parameters.
 */
module TemplateListing {
  import opened Wrappers
  import opened Records

  datatype SortIndex = CreatedDateIndex | CopyCountIndex

  /** A store cursor (`LastEvaluatedKey` / `ExclusiveStartKey`); its encoding is not modelled. */
  datatype Cursor = Cursor(fields: map<string, string>)

  /** The `QueryCommand`: index, key condition `id = partition`, direction, limit and start. */
  datatype Query = Query(index: SortIndex, partition: string, scanForward: bool, limit: nat,
                         exclusiveStartKey: Option<Cursor>)

  /** A query answer: the keys of the association rows read, and the store's cursor. */
  datatype QueryPage = QueryPage(items: seq<Key>, lastEvaluatedKey: Option<Cursor>)

  datatype StoredRow = StoredRow(key: Key, item: Item)

  datatype Response = Response(items: seq<StoredRow>, lastEvaluatedKey: Option<Cursor>)

  /** `sortBy === 'createdDate'` picks the creation-date index; anything else, or nothing, the copy-count index. */
  function IndexFor(sortBy: Option<string>): SortIndex {
    if sortBy == Some("createdDate") then CreatedDateIndex else CopyCountIndex
  }

  function LimitFor(sortBy: Option<string>): nat {
    if sortBy == Some("createdDate") then 10 else 3
  }

  function TagQuery(tagid: string, sortBy: Option<string>, cursor: Option<Cursor>): Query {
    Query(IndexFor(sortBy), "tag#" + tagid, false, LimitFor(sortBy), cursor)
  }

  /** The batch keys: the primary key of each association's template, in association order. */
  function BatchKeys(items: seq<Key>): (keys: seq<Key>)
    ensures |keys| == |items|
    ensures forall i :: 0 <= i < |items| ==> keys[i] == Key("template#" + items[i].templateid, items[i].templateid)
  {
    seq(|items|, i requires 0 <= i < |items| => PrimaryKey(items[i].templateid))
  }

  function TemplateIds(items: seq<Key>): (ids: seq<string>)
    ensures |ids| == |items| && forall i :: 0 <= i < |items| ==> ids[i] == items[i].templateid
  {
    seq(|items|, i requires 0 <= i < |items| => items[i].templateid)
  }

  /** `Array.prototype.indexOf`: the first position of `x`, or -1. */
  function IndexOf(s: seq<string>, x: string): (i: int)
    ensures -1 <= i < |s|
    ensures i == -1 <==> x !in s
    ensures 0 <= i ==> s[i] == x && forall j :: 0 <= j < i ==> s[j] != x
  {
    if s == [] then -1
    else if s[0] == x then 0
    else
      var j := IndexOf(s[1..], x);
      if j == -1 then -1 else j + 1
  }

  function Rank(ids: seq<string>, r: StoredRow): int {
    IndexOf(ids, r.key.templateid)
  }

  predicate SortedBy(ids: seq<string>, rows: seq<StoredRow>) {
    forall i, j :: 0 <= i < j < |rows| ==> Rank(ids, rows[i]) <= Rank(ids, rows[j])
  }

  /** A row that ranks no higher than every row of a sorted sequence can go in front. */
  lemma SortedCons(ids: seq<string>, y: StoredRow, rows: seq<StoredRow>)
    requires SortedBy(ids, rows)
    requires forall z :: z in rows ==> Rank(ids, y) <= Rank(ids, z)
    ensures SortedBy(ids, [y] + rows)
  {
    forall i, j | 0 <= i < j < |[y] + rows|
      ensures Rank(ids, ([y] + rows)[i]) <= Rank(ids, ([y] + rows)[j])
    {
      if i > 0 {
        assert ([y] + rows)[i] == rows[i - 1];
      }
      assert ([y] + rows)[j] == rows[j - 1];
    }
  }

  /** The first row of a sorted sequence ranks no higher than any of its rows. */
  lemma SortedHead(ids: seq<string>, rows: seq<StoredRow>, z: StoredRow)
    requires SortedBy(ids, rows) && z in rows
    ensures Rank(ids, rows[0]) <= Rank(ids, z)
  {
    var k :| 0 <= k < |rows| && rows[k] == z;
    assert k == 0 || Rank(ids, rows[0]) <= Rank(ids, rows[k]);
  }

  /** The tail of a sorted sequence is sorted. */
  lemma SortedTail(ids: seq<string>, rows: seq<StoredRow>)
    requires SortedBy(ids, rows) && rows != []
    ensures SortedBy(ids, rows[1..])
  {
    forall i, j | 0 <= i < j < |rows[1..]| ensures Rank(ids, rows[1..][i]) <= Rank(ids, rows[1..][j]) {
      assert rows[1..][i] == rows[i + 1] && rows[1..][j] == rows[j + 1];
    }
  }

  /** Every row of `rest`, made of `x` and the tail of `rows`, ranks at least as high as `rows[0]`. */
  lemma TailBound(ids: seq<string>, x: StoredRow, rows: seq<StoredRow>, rest: seq<StoredRow>)
    requires SortedBy(ids, rows) && rows != []
    requires Rank(ids, rows[0]) <= Rank(ids, x)
    requires multiset(rest) == multiset(rows[1..]) + multiset{x}
    ensures forall z :: z in rest ==> Rank(ids, rows[0]) <= Rank(ids, z)
  {
    forall z | z in rest ensures Rank(ids, rows[0]) <= Rank(ids, z) {
      assert z in multiset(rest);
      if z != x {
        assert z in multiset(rows[1..]);
        assert z in rows[1..];
        SortedHead(ids, rows, z);
      }
    }
  }

  /** Put `x` before the first row that does not rank strictly lower. */
  function Insert(ids: seq<string>, x: StoredRow, rows: seq<StoredRow>): (out: seq<StoredRow>)
    requires SortedBy(ids, rows)
    ensures multiset(out) == multiset(rows) + multiset{x}
    ensures SortedBy(ids, out)
  {
    if rows == [] then [x]
    else if Rank(ids, x) <= Rank(ids, rows[0]) then
      assert forall z :: z in rows ==> Rank(ids, x) <= Rank(ids, z) by {
        forall z | z in rows ensures Rank(ids, x) <= Rank(ids, z) {
          SortedHead(ids, rows, z);
        }
      }
      SortedCons(ids, x, rows);
      [x] + rows
    else
      assert rows == [rows[0]] + rows[1..];
      SortedTail(ids, rows);
      var rest := Insert(ids, x, rows[1..]);
      TailBound(ids, x, rows, rest);
      SortedCons(ids, rows[0], rest);
      [rows[0]] + rest
  }

  /**
   * `templates.sort((a, b) => indexOf(a) - indexOf(b))`: a stable sort by the
   * position of each template's id among the associations.
   */
  function SortByAssociation(ids: seq<string>, rows: seq<StoredRow>): (out: seq<StoredRow>)
    ensures multiset(out) == multiset(rows)
    ensures SortedBy(ids, out)
  {
    if rows == [] then []
    else
      assert rows == [rows[0]] + rows[1..];
      Insert(ids, rows[0], SortByAssociation(ids, rows[1..]))
  }

  /** `getTemplatesByTag`: a store that throws makes the function rethrow. */
  function GetTemplatesByTag(tagid: string, sortBy: Option<string>, cursor: Option<Cursor>,
                             query: Query -> Answer<QueryPage>,
                             batch: seq<Key> -> Answer<Option<seq<StoredRow>>>): Answer<Response>
  {
    match query(TagQuery(tagid, sortBy, cursor))
    case Threw => Threw
    case Answered(page) =>
      if |page.items| == 0 then Answered(Response([], page.lastEvaluatedKey))
      else
        match batch(BatchKeys(page.items))
        case Threw => Threw
        case Answered(responses) =>
          var templates := responses.GetOr([]);
          Answered(Response(SortByAssociation(TemplateIds(page.items), templates), page.lastEvaluatedKey))
  }

  /** A query-string parameter counts only when present and non-empty (a truthiness test). */
  function Param(params: Option<map<string, string>>, name: string): (v: Option<string>)
    ensures v.Some? <==> params.Some? && name in params.value && params.value[name] != ""
    ensures v.Some? ==> v.value == params.value[name]
  {
    if params.Some? && name in params.value && params.value[name] != "" then Some(params.value[name]) else None
  }

  /** The handler: a missing tag becomes "", a missing sort order `null`; a throw becomes 500. */
  function Handle(params: Option<map<string, string>>, cursor: Option<Cursor>,
                  query: Query -> Answer<QueryPage>,
                  batch: seq<Key> -> Answer<Option<seq<StoredRow>>>): (int, Option<Response>)
  {
    match GetTemplatesByTag(Param(params, "tag").GetOr(""), Param(params, "sortby"), cursor, query, batch)
    case Answered(r) => (200, Some(r))
    case Threw => (500, None)
  }

  /**
   * The query: sort order "createdDate" reads the creation-date index ten rows
   * at a time, any other order or none the copy-count index three at a time;
   * it reads only the tag's association partition, in descending index order,
   * starting after the cursor when there is one.
   */
  lemma QueryShape(tagid: string, sortBy: Option<string>, cursor: Option<Cursor>)
    ensures var q := TagQuery(tagid, sortBy, cursor);
      && (q.index == CreatedDateIndex <==> sortBy == Some("createdDate"))
      && (q.index == CreatedDateIndex ==> q.limit == 10)
      && (q.index == CopyCountIndex ==> q.limit == 3)
      && q.partition == AssocKey(tagid, "").id
      && !q.scanForward
      && q.exclusiveStartKey == cursor
  {
  }

  /** An empty page answers no templates and passes the store's cursor through, whatever the batch would do. */
  lemma EmptyPage(tagid: string, sortBy: Option<string>, cursor: Option<Cursor>,
                  query: Query -> Answer<QueryPage>,
                  batch: seq<Key> -> Answer<Option<seq<StoredRow>>>,
                  batch': seq<Key> -> Answer<Option<seq<StoredRow>>>)
    requires query(TagQuery(tagid, sortBy, cursor)).Answered?
    requires query(TagQuery(tagid, sortBy, cursor)).value.items == []
    ensures GetTemplatesByTag(tagid, sortBy, cursor, query, batch)
         == GetTemplatesByTag(tagid, sortBy, cursor, query, batch')
         == Answered(Response([], query(TagQuery(tagid, sortBy, cursor)).value.lastEvaluatedKey))
  {
  }

  /** Either store call throwing makes the handler answer 500 with no body. */
  lemma StoreFailure(params: Option<map<string, string>>, cursor: Option<Cursor>,
                     query: Query -> Answer<QueryPage>,
                     batch: seq<Key> -> Answer<Option<seq<StoredRow>>>)
    ensures var q := TagQuery(Param(params, "tag").GetOr(""), Param(params, "sortby"), cursor);
      (query(q).Threw?
       || (query(q).Answered? && query(q).value.items != [] && batch(BatchKeys(query(q).value.items)).Threw?))
      <==> Handle(params, cursor, query, batch) == (500, None)
  {
  }

  /**
   * A non-empty page: the templates are exactly the batch's rows (none when
   * the batch has no `Responses`), each at a position no later than any row
   * whose association comes after its own; the cursor is the store's.
   */
  lemma NonEmptyPage(tagid: string, sortBy: Option<string>, cursor: Option<Cursor>,
                     query: Query -> Answer<QueryPage>,
                     batch: seq<Key> -> Answer<Option<seq<StoredRow>>>)
    requires query(TagQuery(tagid, sortBy, cursor)).Answered?
    requires query(TagQuery(tagid, sortBy, cursor)).value.items != []
    requires batch(BatchKeys(query(TagQuery(tagid, sortBy, cursor)).value.items)).Answered?
    ensures var page := query(TagQuery(tagid, sortBy, cursor)).value;
      var rows := batch(BatchKeys(page.items)).value.GetOr([]);
      var r := GetTemplatesByTag(tagid, sortBy, cursor, query, batch);
      && r.Answered?
      && r.value.lastEvaluatedKey == page.lastEvaluatedKey
      && multiset(r.value.items) == multiset(rows)
      && forall i, j :: 0 <= i < j < |r.value.items| ==>
           IndexOf(TemplateIds(page.items), r.value.items[i].key.templateid)
           <= IndexOf(TemplateIds(page.items), r.value.items[j].key.templateid)
  {
  }

  /** Distinct template ids that all occur among the associations appear in association order. */
  lemma OrderFollowsAssociations(items: seq<Key>, rows: seq<StoredRow>, i: nat, j: nat)
    requires 0 <= i < j < |SortByAssociation(TemplateIds(items), rows)|
    requires var out := SortByAssociation(TemplateIds(items), rows);
      out[i].key.templateid in TemplateIds(items) && out[j].key.templateid in TemplateIds(items)
      && out[i].key.templateid != out[j].key.templateid
    ensures var out := SortByAssociation(TemplateIds(items), rows);
      exists a, b :: 0 <= a < b < |items| && items[a].templateid == out[i].key.templateid
                                          && items[b].templateid == out[j].key.templateid
  {
    var ids := TemplateIds(items);
    var out := SortByAssociation(ids, rows);
    var a := IndexOf(ids, out[i].key.templateid);
    var b := IndexOf(ids, out[j].key.templateid);
    assert a != b;
    assert items[a].templateid == out[i].key.templateid && items[b].templateid == out[j].key.templateid;
  }

  /** What a batch get can answer for `keys`: rows of requested keys, at most one per key. */
  predicate BatchAnswer(keys: seq<Key>, rows: seq<StoredRow>) {
    && (forall r :: r in rows ==> r.key in keys)
    && (forall i, j :: 0 <= i < j < |rows| ==> rows[i].key != rows[j].key)
  }

  lemma {:induction false} SubsetCard<T>(a: set<T>, b: set<T>)
    requires a <= b
    ensures |a| <= |b|
    decreases |a|
  {
    if a != {} {
      var x :| x in a;
      SubsetCard(a - {x}, b - {x});
    }
  }

  lemma {:induction false} SeqSetCard<T>(s: seq<T>)
    ensures |set x | x in s| <= |s|
    decreases |s|
  {
    if s != [] {
      SeqSetCard(s[1..]);
      assert (set x | x in s) == {s[0]} + (set x | x in s[1..]);
    }
  }

  lemma {:induction false} DistinctRowsCard(rows: seq<StoredRow>)
    requires forall i, j :: 0 <= i < j < |rows| ==> rows[i].key != rows[j].key
    ensures |set r | r in rows :: r.key| == |rows|
    decreases |rows|
  {
    if rows != [] {
      DistinctRowsCard(rows[1..]);
      assert (set r | r in rows :: r.key) == {rows[0].key} + (set r | r in rows[1..] :: r.key);
      assert rows[0].key !in (set r | r in rows[1..] :: r.key);
    }
  }

  lemma BatchAnswerLength(keys: seq<Key>, rows: seq<StoredRow>)
    requires BatchAnswer(keys, rows)
    ensures |rows| <= |keys|
  {
    DistinctRowsCard(rows);
    SubsetCard(set r | r in rows :: r.key, set k | k in keys);
    SeqSetCard(keys);
  }

  /**
   * A page holds at most its limit of templates, provided the store honours
   * the limit and the batch answers only requested keys, once each.
   */
  lemma WithinLimit(tagid: string, sortBy: Option<string>, cursor: Option<Cursor>,
                    query: Query -> Answer<QueryPage>,
                    batch: seq<Key> -> Answer<Option<seq<StoredRow>>>)
    requires var q := TagQuery(tagid, sortBy, cursor);
      query(q).Answered? ==> |query(q).value.items| <= q.limit
    requires var q := TagQuery(tagid, sortBy, cursor);
      query(q).Answered? ==> var keys := BatchKeys(query(q).value.items);
        batch(keys).Answered? && batch(keys).value.Some? ==> BatchAnswer(keys, batch(keys).value.value)
    ensures var r := GetTemplatesByTag(tagid, sortBy, cursor, query, batch);
      r.Answered? ==> |r.value.items| <= LimitFor(sortBy)
  {
    var q := TagQuery(tagid, sortBy, cursor);
    var r := GetTemplatesByTag(tagid, sortBy, cursor, query, batch);
    if r.Answered? && query(q).value.items != [] {
      var keys := BatchKeys(query(q).value.items);
      var rows := batch(keys).value.GetOr([]);
      if batch(keys).value.Some? {
        BatchAnswerLength(keys, rows);
      }
      assert |r.value.items| == |multiset(r.value.items)| == |multiset(rows)| == |rows|;
    }
  }
}
