/**
 * The two DynamoDB tables of the template feature, as values.
 *
 * Template table: keyed by (id, templateid). A template's primary row lives at
 * ("template#" + uuid, uuid); one association row per tag lives at
 * ("tag#" + tagId, templateid).
 * Tag table: keyed by tag name; holds the surrogate id, the `gsi_pk` partition
 * of the usage index and the usage counter `gsi_sk`.
 */
module Records {
  import opened Wrappers

  datatype Key = Key(id: string, templateid: string)

  function PrimaryKey(templateid: string): Key {
    Key("template#" + templateid, templateid)
  }

  function AssocKey(tagid: string, templateid: string): Key {
    Key("tag#" + tagid, templateid)
  }

  /** Primary and association keys never collide: the prefixes differ at position 1. */
  lemma PrimaryIsNotAssociation(t: string, tagid: string, u: string)
    ensures PrimaryKey(t) != AssocKey(tagid, u)
  {
    assert PrimaryKey(t).id[1] == 'e';
    assert AssocKey(tagid, u).id[1] == 'a';
  }

  lemma AssocKeyInjective(a: string, b: string, t: string, u: string)
    requires AssocKey(a, t) == AssocKey(b, u)
    ensures a == b && t == u
  {
    assert a == AssocKey(a, t).id[4..];
    assert b == AssocKey(b, u).id[4..];
  }

  /** One entry `tagId: tagName` of a template's `tags` object. */
  datatype TagRef = TagRef(tagid: string, tagname: string)

  /**
   * A JavaScript `Record<string, string>` from tag id to tag name. Its keys
   * iterate in insertion order, so it is a sequence of entries.
   */
  type TagsRecord = seq<TagRef>

  predicate DistinctIds(r: TagsRecord) {
    forall i, j :: 0 <= i < j < |r| ==> r[i].tagid != r[j].tagid
  }

  predicate DistinctNames(r: TagsRecord) {
    forall i, j :: 0 <= i < j < |r| ==> r[i].tagname != r[j].tagname
  }

  function Ids(r: TagsRecord): set<string> {
    set e | e in r :: e.tagid
  }

  function Names(r: TagsRecord): set<string> {
    set e | e in r :: e.tagname
  }

  /** `r[id]` of a JavaScript object. */
  function Lookup(r: TagsRecord, id: string): (v: Option<string>)
    ensures v.Some? <==> id in Ids(r)
    ensures v.Some? ==> TagRef(id, v.value) in r
  {
    if r == [] then None
    else if r[0].tagid == id then Some(r[0].tagname)
    else Lookup(r[1..], id)
  }

  /**
   * `r[id] = name` of a JavaScript object: an existing key keeps its place and
   * takes the new value, a new key goes last.
   */
  function Assign(r: TagsRecord, id: string, name: string): (r': TagsRecord)
    ensures Ids(r') == Ids(r) + {id}
    ensures forall e :: e in r' ==> e in r || e == TagRef(id, name)
  {
    if r == [] then [TagRef(id, name)]
    else if r[0].tagid == id then [TagRef(id, name)] + r[1..]
    else
      var rest := Assign(r[1..], id, name);
      IdsConcat([r[0]], rest);
      IdsConcat([r[0]], r[1..]);
      assert r == [r[0]] + r[1..];
      [r[0]] + rest
  }

  lemma IdsConcat(a: TagsRecord, b: TagsRecord)
    ensures Ids(a + b) == Ids(a) + Ids(b)
    ensures Names(a + b) == Names(a) + Names(b)
  {
    assert forall e :: e in a + b <==> e in a || e in b;
  }

  lemma {:induction false} AssignKeepsDistinct(r: TagsRecord, id: string, name: string)
    requires DistinctIds(r)
    ensures DistinctIds(Assign(r, id, name))
  {
    if r != [] && r[0].tagid != id {
      AssignKeepsDistinct(r[1..], id, name);
      var r' := Assign(r, id, name);
      assert r' == [r[0]] + Assign(r[1..], id, name);
      assert r[0].tagid !in Ids(Assign(r[1..], id, name)) by {
        assert r[0].tagid !in Ids(r[1..]) by {
          forall e | e in r[1..] ensures e.tagid != r[0].tagid {
            var j :| 0 <= j < |r[1..]| && r[1..][j] == e;
            assert r[j + 1] == e;
          }
        }
      }
    } else if r != [] {
      var r' := Assign(r, id, name);
      assert forall j :: 0 < j < |r'| ==> r'[j] == r[j];
    }
  }

  /** After `r[id] = name`, `r[id]` is `name` and every other key reads as before. */
  lemma {:induction false} AssignLookup(r: TagsRecord, id: string, name: string, x: string)
    ensures Lookup(Assign(r, id, name), x) == if x == id then Some(name) else Lookup(r, x)
  {
    if r != [] && r[0].tagid != id {
      AssignLookup(r[1..], id, name, x);
    }
  }

  datatype Item =
    | Template(title: string, prompt: string, isPublic: bool, usermailaddress: string,
               tags: TagsRecord, createdDate: string, copycount: nat,
               gsiPk: string, gsiSk: string)
      /** `date` is absent on a row that `SET copycount` created. */
    | Association(date: Option<string>, copycount: nat)

  function WithCopycount(item: Item, c: nat): Item {
    item.(copycount := c)
  }

  /** A tag row; an `UpdateCommand` upsert leaves `tagid` and `gsi_pk` absent. */
  datatype TagItem = TagItem(tagid: Option<string>, gsiPk: Option<string>, count: nat)

  /** `item.tagid` used as a property key: an absent id becomes the key "undefined". */
  function IdOf(t: TagItem): string {
    t.tagid.GetOr("undefined")
  }

  const UsageIndexPartition: string := "templateCount"

  /** The three tag names that reconciliation never deletes. */
  predicate Protected(name: string) {
    name == "営業" || name == "デザイナー" || name == "マーチャンダイザー"
  }

  type Table = map<Key, Item>
  type TagTable = map<string, TagItem>

  /** Both tables. */
  datatype Db = Db(templates: Table, tags: TagTable)

  /** Every row, primary or association, that belongs to template `tid`. */
  function RowsOf(table: Table, tid: string): set<Key> {
    set k | k in table && k.templateid == tid
  }

  function AssocKeys(r: TagsRecord, tid: string): set<Key> {
    set e | e in r :: AssocKey(e.tagid, tid)
  }

  /**
   * The association invariant of one template: its rows are its primary row and
   * exactly one association per tag id in its `tags`, each carrying the
   * primary's `createdDate` and `copycount`.
   */
  predicate AssociationsMatch(table: Table, tid: string) {
    && PrimaryKey(tid) in table
    && table[PrimaryKey(tid)].Template?
    && DistinctIds(table[PrimaryKey(tid)].tags)
    && RowsOf(table, tid) == {PrimaryKey(tid)} + AssocKeys(table[PrimaryKey(tid)].tags, tid)
    && forall e :: e in table[PrimaryKey(tid)].tags ==>
         && AssocKey(e.tagid, tid) in table
         && table[AssocKey(e.tagid, tid)]
         == Association(Some(table[PrimaryKey(tid)].createdDate), table[PrimaryKey(tid)].copycount)
  }

  /** Two tables that agree on every row of template `tid`. */
  ghost predicate SameRows(t: Table, t': Table, tid: string) {
    forall k: Key :: k.templateid == tid ==> (k in t <==> k in t') && (k in t ==> t[k] == t'[k])
  }

  /** The association invariant of a template depends on that template's rows only. */
  lemma AssociationsMatchLocal(t: Table, t': Table, tid: string)
    requires SameRows(t, t', tid) && AssociationsMatch(t, tid)
    ensures AssociationsMatch(t', tid)
  {
    assert PrimaryKey(tid).templateid == tid;
    assert RowsOf(t, tid) == RowsOf(t', tid);
    forall e | e in t'[PrimaryKey(tid)].tags ensures AssocKey(e.tagid, tid) in t' {
      assert AssocKey(e.tagid, tid).templateid == tid;
    }
  }
}
