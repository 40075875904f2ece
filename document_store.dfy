/**
 * The persisted documents of one model type, as Mongoid's `find_by` sees them.
 * A stored document keeps its current slug `url` (nil until one is assigned) and
 * its slug history `urls` (empty for a model in simple mode). The store is an
 * ordered sequence: `find_by` returns the first document, in store order, that
 * matches the query.
 */
module DocumentStore {
  import opened Wrappers

  datatype StoredDoc = StoredDoc(url: Option<string>, urls: seq<string>)

  /** `find_by(url: u)` matches the current slug; `find_by(urls: u)` matches any element of the history array. */
  datatype Query = UrlIs(u: string) | UrlsContain(u: string)

  predicate Matches(d: StoredDoc, q: Query) {
    match q
    case UrlIs(u) => d.url == Some(u)
    case UrlsContain(u) => u in d.urls
  }

  /** The index of the first stored document that matches `q`, or nil when none does. */
  function FindBy(store: seq<StoredDoc>, q: Query): (r: Option<nat>)
    ensures r.Some? ==> r.value < |store| && Matches(store[r.value], q)
    ensures r.Some? ==> forall j :: 0 <= j < r.value ==> !Matches(store[j], q)
    ensures r.None? <==> forall j :: 0 <= j < |store| ==> !Matches(store[j], q)
  {
    if store == [] then None
    else if Matches(store[0], q) then Some(0)
    else
      match FindBy(store[1..], q)
      case None => None
      case Some(i) => Some(i + 1)
  }
}
