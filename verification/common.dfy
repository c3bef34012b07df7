/** Shared value types: optional values, results that carry the Python
    exception a call would raise, and the persisted inventory snapshot. */
module Common {

  datatype Option<+T> = None | Some(value: T)

  /** The exceptions the modelled code can raise (or let propagate). */
  datatype Error =
    | MultipleRows(name: string, store: string)  // "There are multiple rows matching ..."
    | IndexError                                 // indexing an empty list
    | KeyError(key: string)                      // a missing dictionary key
    | ValueError                                 // dict() of a non-pair, max()/min() of an empty set
    | TypeError                                  // dict.update(None)
    | PageLoadFailed                             // "Category page failed to load"
    | ForeignKeyViolation                        // sqlite3.IntegrityError on an unknown parentid

  datatype Result<+T> = Ok(value: T) | Err(error: Error)

  /** A Python loop that applies `f` to each element in order, collecting
      the results, and lets the first exception propagate. */
  function MapResults<A, B>(f: A -> Result<B>, xs: seq<A>): Result<seq<B>>
    decreases |xs|
  {
    if xs == [] then Ok([])
    else
      match MapResults(f, xs[..|xs| - 1])
      case Err(e) => Err(e)
      case Ok(ys) =>
        match f(xs[|xs| - 1])
        case Err(e) => Err(e)
        case Ok(y) => Ok(ys + [y])
  }

  /** The loop completes iff every element succeeds, and then it yields one
      result per element, in order. */
  lemma {:induction false} MapResultsOk<A, B>(f: A -> Result<B>, xs: seq<A>)
    ensures var r := MapResults(f, xs);
      && (r.Ok? <==> forall k :: 0 <= k < |xs| ==> f(xs[k]).Ok?)
      && (r.Ok? ==> |r.value| == |xs| && forall k :: 0 <= k < |xs| ==> f(xs[k]) == Ok(r.value[k]))
    decreases |xs|
  {
    if xs != [] {
      var init := xs[..|xs| - 1];
      assert forall k :: 0 <= k < |init| ==> init[k] == xs[k];
      MapResultsOk(f, init);
    }
  }

  /** A failed loop reports the exception of the first failing element. */
  lemma {:induction false} MapResultsFirstError<A, B>(f: A -> Result<B>, xs: seq<A>)
    ensures var r := MapResults(f, xs);
      r.Err? ==> exists k :: 0 <= k < |xs| && f(xs[k]) == Err(r.error) && forall j :: 0 <= j < k ==> f(xs[j]).Ok?
    decreases |xs|
  {
    if xs != [] {
      var init := xs[..|xs| - 1];
      assert forall k :: 0 <= k < |init| ==> init[k] == xs[k];
      MapResultsFirstError(f, init);
      MapResultsOk(f, init);
      if MapResults(f, init).Ok? && f(xs[|xs| - 1]).Err? {
        assert f(xs[|xs| - 1]) == Err(MapResults(f, xs).error);
      }
    }
  }

  /** Once a prefix fails, the whole loop fails with the same exception. */
  lemma {:induction false} MapResultsFailEarly<A, B>(f: A -> Result<B>, xs: seq<A>, i: nat)
    requires i <= |xs| && MapResults(f, xs[..i]).Err?
    ensures MapResults(f, xs) == MapResults(f, xs[..i])
    decreases |xs|
  {
    if i < |xs| {
      assert xs[..|xs| - 1][..i] == xs[..i];
      MapResultsFailEarly(f, xs[..|xs| - 1], i);
    } else {
      assert xs[..i] == xs;
    }
  }

  /** A product price as stored in the snapshot: `(price,)` or `(min, max)`. */
  datatype Price = Single(price: string) | Range(low: string, high: string)

  /** One inventory entry: `{name, categories, url, price}`. */
  datatype Item = Item(name: string, categories: seq<seq<string>>, url: string, price: Price)

  /** The top level of the inventory JSON document: key -> list of items. */
  type Document = map<string, seq<Item>>
}
