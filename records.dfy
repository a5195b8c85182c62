/** Record shapes of the content store.

    The store has two tables. The UID table holds one record per caller key;
    each record owns an ordered list of Content rows (cascade on delete). The
    Content table is keyed by the composite string `uid + "#" + content_id`.
    Here the UID table is a map from a UID to the keys of its rows, in stored
    order, and the Content table is a map from key to row.
 */
module Records {

  datatype Option<T> = None | Some(value: T)

  /** One row of the Content table. `owner` is the UID the row belongs to
      (its foreign key); `url` is the stored signed URL, if any. */
  datatype Content = Content(
    key: string,
    service: string,
    queue: int,
    expiration: Option<int>,
    url: Option<string>,
    owner: string)

  datatype Tables = Tables(uids: map<string, seq<string>>, contents: map<string, Content>)

  /** The composite primary key of a content row. */
  function Key(uid: string, cid: string): (k: string)
    ensures |k| == |uid| + 1 + |cid|
    ensures k[..|uid|] == uid && k[|uid|] == '#' && k[|uid| + 1..] == cid
  {
    uid + "#" + cid
  }

  /** Under a fixed UID the key determines the content id it was built from. */
  lemma KeyInjectiveForUid(uid: string, cid1: string, cid2: string)
    requires Key(uid, cid1) == Key(uid, cid2)
    ensures cid1 == cid2
  {
    assert cid1 == Key(uid, cid1)[|uid| + 1..];
  }

  /** The key is not injective in the pair (uid, content id): a '#' inside
      either part lets two different pairs share one row key. */
  lemma KeyCollides()
    ensures Key("a", "b#c") == Key("a#b", "c")
  {
    assert Key("a", "b#c") == "a#b#c";
    assert Key("a#b", "c") == "a#b#c";
  }

  ghost predicate NoDuplicates(s: seq<string>) {
    forall i, j :: 0 <= i < j < |s| ==> s[i] != s[j]
  }

  /** Every key a UID lists is a row owned by that UID. */
  ghost predicate ListedRowsOwned(t: Tables) {
    forall u, i :: u in t.uids && 0 <= i < |t.uids[u]| ==>
      t.uids[u][i] in t.contents && t.contents[t.uids[u][i]].owner == u
  }

  /** A UID lists each of its rows once. */
  ghost predicate ListsDistinct(t: Tables) {
    forall u :: u in t.uids ==> NoDuplicates(t.uids[u])
  }

  /** Every row is stored under its own key, which starts with its owner and
      '#', and is listed by its owner. */
  ghost predicate RowsListed(t: Tables) {
    forall k :: k in t.contents ==>
      && t.contents[k].key == k
      && |t.contents[k].owner| < |k|
      && k[..|t.contents[k].owner| + 1] == t.contents[k].owner + "#"
      && t.contents[k].owner in t.uids
      && k in t.uids[t.contents[k].owner]
  }

  /** The consistency the database keeps between the two tables. */
  ghost predicate Valid(t: Tables) {
    ListedRowsOwned(t) && ListsDistinct(t) && RowsListed(t)
  }

  /** `query_one_uid`: the UID record with its rows, in stored order. */
  function QueryOneUid(t: Tables, uid: string): (r: Option<seq<Content>>)
    requires Valid(t)
    ensures r.Some? <==> uid in t.uids
    ensures r.Some? ==> |r.value| == |t.uids[uid]|
    ensures r.Some? ==> forall i :: 0 <= i < |r.value| ==>
              r.value[i].owner == uid && r.value[i].key == t.uids[uid][i]
    ensures r.Some? ==> forall i :: 0 <= i < |r.value| ==> r.value[i] == t.contents[t.uids[uid][i]]
  {
    if uid in t.uids then
      var ks := t.uids[uid];
      Some(seq(|ks|, i requires 0 <= i < |ks| => t.contents[ks[i]]))
    else
      None
  }

  /** `query_one_content`: the row whose key is `uid#cid`, looked up in the
      whole Content table. */
  function QueryOneContent(t: Tables, uid: string, cid: string): (r: Option<Content>)
    requires Valid(t)
    ensures r.Some? <==> Key(uid, cid) in t.contents
    ensures r.Some? ==> r.value == t.contents[Key(uid, cid)] && r.value.key == Key(uid, cid)
    ensures r.Some? ==> r.value.owner in t.uids && Key(uid, cid) in t.uids[r.value.owner]
  {
    var k := Key(uid, cid);
    if k in t.contents then Some(t.contents[k]) else None
  }

  /** A row listed under `uid` is what `query_one_content` finds for it. */
  lemma QueryFindsListedRow(t: Tables, uid: string, cid: string)
    requires Valid(t)
    requires uid in t.uids && Key(uid, cid) in t.uids[uid]
    ensures QueryOneContent(t, uid, cid).Some?
    ensures QueryOneContent(t, uid, cid).value.owner == uid
  {
    var ks := t.uids[uid];
    var i :| 0 <= i < |ks| && ks[i] == Key(uid, cid);
  }
}
