/** Failure-carrying values shared by every module of the model. */
module Results {

  datatype Option<T> = None | Some(value: T)

  /** The Python exceptions that the modelled code can raise. */
  datatype Error =
    | KeyError            // a missing dictionary key or an unknown island name
    | IndexError          // `[0]` on an empty list
    | UnboundLocalError   // `lower` read before any assignment
    | ZeroDivisionError   // a division by a zero area

  /** The outcome of a call that either returns a value or raises. */
  datatype Result<T> = Ok(value: T) | Err(error: Error)

  /** `f` applied to each element in order, collecting the values, or the
      first error raised: a loop that appends one result per element and
      lets an exception escape. */
  function CollectAll<T, U>(xs: seq<T>, f: T -> Result<U>): Result<seq<U>> {
    if xs == [] then Ok([])
    else
      match f(xs[0])
      case Err(e) => Err(e)
      case Ok(u) =>
        match CollectAll(xs[1..], f)
        case Err(e) => Err(e)
        case Ok(us) => Ok([u] + us)
  }

  /** The values collected so far followed by those of the remaining
      elements, or their first error. */
  function Then<U>(done: seq<U>, rest: Result<seq<U>>): Result<seq<U>> {
    if rest.Err? then rest else Ok(done + rest.value)
  }

  /** The collection succeeds exactly when every call does, and then holds
      one value per element, in order. */
  lemma {:induction false} CollectAllOk<T, U>(xs: seq<T>, f: T -> Result<U>)
    ensures CollectAll(xs, f).Ok? <==> forall k :: 0 <= k < |xs| ==> f(xs[k]).Ok?
    ensures CollectAll(xs, f).Ok? ==>
              |CollectAll(xs, f).value| == |xs| &&
              forall k :: 0 <= k < |xs| ==> CollectAll(xs, f).value[k] == f(xs[k]).value
  {
    if xs != [] {
      var rest := xs[1..];
      CollectAllOk(rest, f);
      assert forall k :: 0 <= k < |rest| ==> rest[k] == xs[k + 1];
      if forall k :: 0 <= k < |rest| ==> f(rest[k]).Ok? {
        if f(xs[0]).Ok? {
          forall k | 0 <= k < |xs| ensures f(xs[k]).Ok? {
            if k > 0 {
              assert xs[k] == rest[k - 1];
            }
          }
        }
      }
      if CollectAll(xs, f).Ok? {
        var us := CollectAll(xs, f).value;
        forall k | 0 <= k < |xs| ensures us[k] == f(xs[k]).value {
          if k > 0 {
            assert xs[k] == rest[k - 1];
          }
        }
      }
    }
  }

  /** One step of the loop: the next value moves into the collected
      prefix, or its error is the error of the whole collection. */
  lemma CollectStep<T, U>(xs: seq<T>, a: nat, f: T -> Result<U>, done: seq<U>, c: Result<U>)
    requires a < |xs| && Then(done, CollectAll(xs[a..], f)) == CollectAll(xs, f) && c == f(xs[a])
    ensures c.Err? ==> CollectAll(xs, f) == Err(c.error)
    ensures c.Ok? ==> Then(done + [c.value], CollectAll(xs[a + 1..], f)) == CollectAll(xs, f)
  {
    assert xs[a..][1..] == xs[a + 1..];
    if c.Ok? && CollectAll(xs[a + 1..], f).Ok? {
      var rest := CollectAll(xs[a + 1..], f).value;
      assert done + ([c.value] + rest) == (done + [c.value]) + rest;
    }
  }
}
