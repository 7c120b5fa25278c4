/** Cursor-based listing services and the pages a client collects by
    following their cursors. A service is a function from the cursor sent
    (None for the first request) to one page or an error; a continuation rule
    decides, from the cursor used and the page received, whether to ask for
    the page at `next`. */
module Paging {
  import opened Wrappers

  datatype Page<T> = Page(items: seq<T>, hasMore: bool, next: string)

  type Lister<T> = Option<string> -> Result<Page<T>, string>

  type Rule<!T> = (Option<string>, Page<T>) -> bool

  /** The chain of requests that starts at `cursor` stops (with a last page
      or an error) within `n` requests. */
  predicate Ends<T>(list: Lister<T>, more: Rule<T>, cursor: Option<string>, n: nat)
    decreases n
  {
    n > 0 &&
    (list(cursor).Ok? && more(cursor, list(cursor).value) ==>
       Ends(list, more, Some(list(cursor).value.next), n - 1))
  }

  /** A larger request budget is still enough. */
  lemma {:induction false} EndsMono<T>(list: Lister<T>, more: Rule<T>, cursor: Option<string>, n: nat, m: nat)
    requires Ends(list, more, cursor, n) && n <= m
    ensures Ends(list, more, cursor, m)
    decreases n
  {
    if list(cursor).Ok? && more(cursor, list(cursor).value) {
      EndsMono(list, more, Some(list(cursor).value.next), n - 1, m - 1);
    }
  }

  /** `acc` followed by the items of `r`, or the error of `r`. */
  function Prepend<T>(acc: seq<T>, r: Result<seq<T>, string>): (p: Result<seq<T>, string>)
    ensures p.Ok? <==> r.Ok?
    ensures p.Ok? ==> |p.value| == |acc| + |r.value| && p.value[..|acc|] == acc && p.value[|acc|..] == r.value
    ensures p.Err? ==> p == r
  {
    if r.Ok? then Ok(acc + r.value) else r
  }

  lemma PrependTwice<T>(a: seq<T>, b: seq<T>, r: Result<seq<T>, string>)
    ensures Prepend(a, Prepend(b, r)) == Prepend(a + b, r)
  {
    if r.Ok? {
      assert a + (b + r.value) == a + b + r.value;
    }
  }

  /** The items of every page from `cursor` on, concatenated in page order;
      the first error ends the listing with that error. */
  function Collect<T>(list: Lister<T>, more: Rule<T>, cursor: Option<string>, n: nat): (r: Result<seq<T>, string>)
    requires Ends(list, more, cursor, n)
    ensures list(cursor).Err? ==> r == Err(list(cursor).error)
    ensures list(cursor).Ok? ==> r == Prepend(list(cursor).value.items, Rest(list, more, cursor, n))
    decreases n, 1
  {
    match list(cursor)
    case Err(e) => Err(e)
    case Ok(p) => Prepend(p.items, Rest(list, more, cursor, n))
  }

  /** What the pages after the one at `cursor` contribute. */
  function Rest<T>(list: Lister<T>, more: Rule<T>, cursor: Option<string>, n: nat): Result<seq<T>, string>
    requires Ends(list, more, cursor, n) && list(cursor).Ok?
    decreases n, 0
  {
    if more(cursor, list(cursor).value) then Collect(list, more, Some(list(cursor).value.next), n - 1)
    else Ok([])
  }

  /** The request budget does not change what is collected. */
  lemma {:induction false} CollectFuel<T>(list: Lister<T>, more: Rule<T>, cursor: Option<string>, n: nat, m: nat)
    requires Ends(list, more, cursor, n) && Ends(list, more, cursor, m)
    ensures Collect(list, more, cursor, n) == Collect(list, more, cursor, m)
    decreases n
  {
    if list(cursor).Ok? && more(cursor, list(cursor).value) {
      CollectFuel(list, more, Some(list(cursor).value.next), n - 1, m - 1);
    }
  }

  /** What a client observes of its own calls: limiter waits and requests. */
  datatype Event = Wait(ok: bool) | Call

  /** Every request comes right after a successful wait, and a failed wait is
      the last thing that happens. */
  predicate Paced(trace: seq<Event>) {
    (forall i :: 0 <= i < |trace| && trace[i] == Call ==> i > 0 && trace[i - 1] == Wait(true))
    && (forall i :: 0 <= i < |trace| && trace[i] == Wait(false) ==> i == |trace| - 1)
  }

  /** The message a client returns when the limiter refuses to wait. */
  const LimiterFailed := "rate limiter wait failed"

  /** Collect with a limiter wait before every request: `wait(k)` is the
      outcome of the k-th wait. Yields the result and the trace of waits and
      requests. */
  function CollectPaced<T>(list: Lister<T>, more: Rule<T>, cursor: Option<string>, n: nat,
                           wait: nat -> bool, k: nat): (r: (Result<seq<T>, string>, seq<Event>))
    requires Ends(list, more, cursor, n)
    ensures Paced(r.1)
    ensures |r.1| > 0 && r.1[0] == Wait(wait(k))
    ensures !wait(k) ==> r == (Err(LimiterFailed), [Wait(false)])
    decreases n
  {
    if !wait(k) then (Err(LimiterFailed), [Wait(false)])
    else match list(cursor)
      case Err(e) => (Err(e), [Wait(true), Call])
      case Ok(p) =>
        if more(cursor, p) then
          var rest := CollectPaced(list, more, Some(p.next), n - 1, wait, k + 1);
          (Prepend(p.items, rest.0), [Wait(true), Call] + rest.1)
        else (Ok(p.items), [Wait(true), Call])
  }

  /** One page with more to follow: what is collected from `cursor` after
      `acc` is what is collected from the next cursor after `acc` and the
      page's items, and the trace grows by the page's wait and request. */
  lemma CollectPacedStep<T>(list: Lister<T>, more: Rule<T>, cursor: Option<string>, n: nat,
                            wait: nat -> bool, k: nat, acc: seq<T>, trace: seq<Event>)
    requires Ends(list, more, cursor, n) && wait(k)
    requires list(cursor).Ok? && more(cursor, list(cursor).value)
    ensures Ends(list, more, Some(list(cursor).value.next), n - 1)
    ensures var c := CollectPaced(list, more, cursor, n, wait, k);
      var c' := CollectPaced(list, more, Some(list(cursor).value.next), n - 1, wait, k + 1);
      Prepend(acc, c.0) == Prepend(acc + list(cursor).value.items, c'.0)
      && trace + c.1 == (trace + [Wait(true), Call]) + c'.1
  {
    var p := list(cursor).value;
    var c' := CollectPaced(list, more, Some(p.next), n - 1, wait, k + 1);
    PrependTwice(acc, p.items, c'.0);
  }

  /** When the limiter never refuses, the paced listing collects exactly what
      the unpaced one does. */
  lemma {:induction false} CollectPacedAllowed<T>(list: Lister<T>, more: Rule<T>, cursor: Option<string>, n: nat,
                                                 wait: nat -> bool, k: nat)
    requires Ends(list, more, cursor, n)
    requires forall j :: k <= j ==> wait(j)
    ensures CollectPaced(list, more, cursor, n, wait, k).0 == Collect(list, more, cursor, n)
    decreases n
  {
    assert wait(k);
    if list(cursor).Ok? {
      var p := list(cursor).value;
      if more(cursor, p) {
        CollectPacedAllowed(list, more, Some(p.next), n - 1, wait, k + 1);
        assert Rest(list, more, cursor, n) == Collect(list, more, Some(p.next), n - 1);
      } else {
        assert Rest(list, more, cursor, n) == Ok([]);
        assert p.items + [] == p.items;
      }
    }
  }
}
