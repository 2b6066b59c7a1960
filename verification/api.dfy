/**
 * The generic database helpers of src/services/api.js: collection naming,
 * the query URL, the replies used when the server answers with an empty
 * body, and the update-else-create choice of `dbUpsert`. The HTTP exchange
 * itself is a parameter: each call's reply is given as a `Response`.
 */
module Api {
  import opened Wrappers
  import opened Text
  import opened JsonData

  const FunifierBase := "https://service2.funifier.com/v3"
  const DbBase := FunifierBase + "/database"
  const CollectionSuffix := "__c"

  /** `dbCollection`: custom collections carry the `__c` suffix exactly once. */
  function DbCollection(name: string): (r: string)
    ensures EndsWith(r, CollectionSuffix)
    ensures EndsWith(name, CollectionSuffix) ==> r == name
    ensures !EndsWith(name, CollectionSuffix) ==> r == name + CollectionSuffix
  {
    if EndsWith(name, CollectionSuffix) then name
    else
      var r := name + CollectionSuffix;
      assert r[|r| - 3..] == CollectionSuffix;
      r
  }

  lemma DbCollectionIdempotent(name: string)
    ensures DbCollection(DbCollection(name)) == DbCollection(name)
  {
  }

  /** `${DB_BASE}/${dbCollection(collection)}` */
  function CollectionUrl(collection: string): string {
    DbBase + "/" + DbCollection(collection)
  }

  lemma NoQueryMarkInBase()
    ensures '?' !in DbBase
  {
    assert DbBase == "https://" + "service2." + "funifier." + "com/v3" + "/database";
    assert '?' !in "https://" && '?' !in "service2." && '?' !in "funifier." && '?' !in "com/v3" && '?' !in "/database";
  }

  lemma NoQueryMarkInCollectionUrl(collection: string)
    requires '?' !in collection
    ensures '?' !in CollectionUrl(collection)
  {
    NoQueryMarkInBase();
    assert '?' !in DbCollection(collection) by {
      assert '?' !in CollectionSuffix;
    }
  }

  /** Joining a `?`-free prefix and a query with `?` puts the first `?` between them. */
  lemma QueryMarkSplits(base: string, query: string)
    requires '?' !in base
    ensures IndexOfChar(base + "?" + query, '?') == |base|
  {
    var r := base + "?" + query;
    assert r[|base|] == '?';
    var q := IndexOfChar(r, '?');
  }

  /**
   * `dbGet`'s URL: the query is attached after a `?` only when it is
   * non-empty. For a collection name without `?`, the first `?` of the URL
   * separates the collection URL from the query, so both can be read back.
   */
  function DbGetUrl(collection: string, query: string): (r: string)
    ensures query == "" ==> r == CollectionUrl(collection)
    ensures '?' !in collection ==> ('?' in r <==> query != "")
    ensures '?' !in collection && query != "" ==>
      var q := IndexOfChar(r, '?');
      0 <= q && r[..q] == CollectionUrl(collection) && r[q + 1..] == query
  {
    var base := CollectionUrl(collection);
    if query == "" then
      assert '?' !in collection ==> '?' !in base by {
        if '?' !in collection {
          NoQueryMarkInCollectionUrl(collection);
        }
      }
      base
    else
      var r := base + "?" + query;
      assert '?' !in collection ==> IndexOfChar(r, '?') == |base| by {
        if '?' !in collection {
          NoQueryMarkInCollectionUrl(collection);
          QueryMarkSplits(base, query);
        }
      }
      assert r[..|base|] == base && r[|base| + 1..] == query;
      r
  }

  /** A reply as the helpers see it: `res.ok` and the body text. */
  datatype Response = Response(ok: bool, body: string)

  datatype Verb = PUT | POST | GET | DELETE

  /** A request a helper sends: its method, URL and JSON body. */
  datatype Request = Request(verb: Verb, url: string, body: Json)

  /**
   * `if (!res.ok) throw ...; text ? JSON.parse(text) : fallback`: `None`
   * stands for the thrown error, whether from the status or from parsing.
   */
  function ReplyOr(res: Response, fallback: Json, parse: string -> Option<Json>): (r: Option<Json>)
    ensures !res.ok ==> r.None?
    ensures res.ok && res.body == "" ==> r == Some(fallback)
    ensures res.ok && res.body != "" ==> r == parse(res.body)
  {
    if !res.ok then None
    else if res.body == "" then Some(fallback)
    else parse(res.body)
  }

  /** `{ _id: id, ...data }`: an `_id` inside `data` wins over `id`. */
  function WithId(id: Json, data: Fields): (r: Fields)
    ensures Lookup(r, "_id") == (if Lookup(data, "_id").Some? then Lookup(data, "_id") else Some(id))
    ensures forall k :: k != "_id" ==> Lookup(r, k) == Lookup(data, k)
  {
    var head := [("_id", id)];
    LookupAt(head, 0);
    assert forall k :: k != "_id" ==> Lookup(head, k).None? by {
      assert head[..0] == [];
    }
    Spread(head, data)
  }

  /** `dbPost`: an empty body answers with the data that was sent. */
  function DbPost(data: Json, res: Response, parse: string -> Option<Json>): (r: Option<Json>)
    ensures res.ok && res.body == "" ==> r == Some(data)
    ensures !res.ok ==> r.None?
    ensures res.ok && res.body != "" ==> r == parse(res.body)
  {
    ReplyOr(res, data, parse)
  }

  /** `dbPut`: an empty body answers with the record sent, `_id` included. */
  function DbPut(id: Json, data: Fields, res: Response, parse: string -> Option<Json>): (r: Option<Json>)
    ensures res.ok && res.body == "" ==>
      r.Some? && r.value.Obj? && Get(r.value, "_id") == (if Lookup(data, "_id").Some? then Lookup(data, "_id") else Some(id))
    ensures res.ok && res.body == "" ==> forall k :: k != "_id" ==> Get(r.value, k) == Lookup(data, k)
    ensures !res.ok ==> r.None?
    ensures res.ok && res.body != "" ==> r == parse(res.body)
  {
    ReplyOr(res, Obj(WithId(id, data)), parse)
  }

  /** `dbDelete`: an empty body answers with `{ _id: id }` and nothing else. */
  function DbDelete(id: Json, res: Response, parse: string -> Option<Json>): (r: Option<Json>)
    ensures res.ok && res.body == "" ==> r.Some? && Get(r.value, "_id") == Some(id)
    ensures res.ok && res.body == "" ==> forall k :: k != "_id" ==> Get(r.value, k).None?
    ensures !res.ok ==> r.None?
    ensures res.ok && res.body != "" ==> r == parse(res.body)
  {
    var fs := [("_id", id)];
    LookupAt(fs, 0);
    assert forall k :: k != "_id" ==> Lookup(fs, k).None? by {
      assert fs[..0] == [];
    }
    ReplyOr(res, Obj(fs), parse)
  }

  /** The PUT `dbPut` sends. */
  function PutRequest(collection: string, id: Json, data: Fields): Request {
    Request(PUT, CollectionUrl(collection), Obj(WithId(id, data)))
  }

  /** The POST `dbPost` sends, carrying the same record. */
  function PostRequest(collection: string, id: Json, data: Fields): Request {
    Request(POST, CollectionUrl(collection), Obj(WithId(id, data)))
  }

  /**
   * `dbUpsert`: the update is tried first; a create carrying the same
   * `{ _id: id, ...data }` record follows exactly when the update throws,
   * which includes an accepted PUT whose body does not parse. The result is
   * that of the last call made.
   */
  function DbUpsert(collection: string, id: Json, data: Fields, putRes: Response, postRes: Response,
                    parse: string -> Option<Json>): (r: (seq<Request>, Option<Json>))
    ensures 1 <= |r.0| <= 2 && r.0[0] == PutRequest(collection, id, data)
    ensures |r.0| == 2 <==> DbPut(id, data, putRes, parse).None?
    ensures |r.0| == 2 ==> r.0[1] == PostRequest(collection, id, data) && r.0[1].body == r.0[0].body
    ensures |r.0| == 1 ==> r.1 == DbPut(id, data, putRes, parse)
    ensures |r.0| == 2 ==> r.1 == DbPost(Obj(WithId(id, data)), postRes, parse)
  {
    match DbPut(id, data, putRes, parse)
    case Some(v) => ([PutRequest(collection, id, data)], Some(v))
    case None =>
      ([PutRequest(collection, id, data), PostRequest(collection, id, data)],
       DbPost(Obj(WithId(id, data)), postRes, parse))
  }

  /** An update the server accepts with an empty body never leads to a create. */
  lemma AcceptedPutDoesNotCreate(collection: string, id: Json, data: Fields, postRes: Response,
                                 parse: string -> Option<Json>)
    ensures DbUpsert(collection, id, data, Response(true, ""), postRes, parse).0 == [PutRequest(collection, id, data)]
  {
  }

  /** An update the server accepts but answers with unparsable text is still followed by a create. */
  lemma UnparsablePutCreates(collection: string, id: Json, data: Fields, body: string, postRes: Response,
                             parse: string -> Option<Json>)
    requires body != "" && parse(body).None?
    ensures |DbUpsert(collection, id, data, Response(true, body), postRes, parse).0| == 2
  {
  }
}
