/** Loading a watched page (`Sajt.__init__`): up to sixteen attempts,
    keeping the first page that loads; when every attempt fails the process
    exits. */
module Fetching {
  import opened Wrappers
  import opened Formatting

  /** The regions of a loaded page the poll loop selects, each None when the
      selector matches nothing (`select(...)[0]` then raises IndexError):
      the fingerprinted region's markup, the announcement heading's markup
      and the announcement body. */
  datatype Page = Page(region: Option<string>, heading: Option<string>, content: Option<Content>)

  /** The outcome of one `urlopen`: the parsed page, or a URLError /
      RemoteDisconnected that the loop catches. */
  datatype Attempt = Loaded(page: Page) | Refused

  /** What the attempts came to: the page kept (None when the run gives up)
      and how many attempts were made. */
  datatype Fetched = Fetched(page: Option<Page>, attempts: nat)

  const MaxAttempts: nat := 16

  /** The outcome of attempts `p`, `p + 1`, ... given the outcome of the
      k-th attempt as `tries(k)`. */
  function FetchFrom(tries: nat -> Attempt, p: nat): (r: Fetched)
    requires p <= MaxAttempts
    ensures r.attempts <= MaxAttempts
    ensures r.page.Some? ==> p < r.attempts && tries(r.attempts - 1) == Loaded(r.page.value)
    ensures r.page.Some? ==> forall i :: p <= i < r.attempts - 1 ==> tries(i) == Refused
    ensures r.page.None? ==> r.attempts == MaxAttempts && forall i :: p <= i < MaxAttempts ==> tries(i) == Refused
    decreases MaxAttempts - p
  {
    if p == MaxAttempts then Fetched(None, MaxAttempts)
    else if tries(p).Loaded? then Fetched(Some(tries(p).page), p + 1)
    else FetchFrom(tries, p + 1)
  }

  /** The whole retry loop. */
  function FetchPage(tries: nat -> Attempt): Fetched
  {
    FetchFrom(tries, 0)
  }

  /** The `for p in range(16)` loop with its `break` on success and its
      `else: exit()` when no attempt succeeded. */
  method Fetch(tries: nat -> Attempt) returns (r: Fetched)
    ensures r == FetchPage(tries)
    ensures 1 <= r.attempts <= MaxAttempts
    ensures r.page.Some? <==> exists i :: 0 <= i < MaxAttempts && tries(i).Loaded?
    ensures r.page.Some? ==> tries(r.attempts - 1) == Loaded(r.page.value)
    ensures forall i :: 0 <= i < r.attempts - 1 ==> tries(i) == Refused
    ensures r.page.None? ==> r.attempts == MaxAttempts && tries(MaxAttempts - 1) == Refused
  {
    var p := 0;
    while p < MaxAttempts
      invariant 0 <= p <= MaxAttempts
      invariant FetchFrom(tries, p) == FetchPage(tries)
      invariant forall i :: 0 <= i < p ==> tries(i) == Refused
    {
      match tries(p)
      case Loaded(page) =>
        return Fetched(Some(page), p + 1);
      case Refused =>
        p := p + 1;
    }
    r := Fetched(None, MaxAttempts);
  }

  /** When attempt `k` is the first to load, its page is the one kept and
      exactly `k + 1` attempts are made. */
  lemma {:induction false} FirstLoadedIsKept(tries: nat -> Attempt, k: nat)
    requires k < MaxAttempts && tries(k).Loaded?
    requires forall i :: 0 <= i < k ==> tries(i) == Refused
    ensures FetchPage(tries) == Fetched(Some(tries(k).page), k + 1)
  {
    FromReachesFirstLoaded(tries, 0, k);
  }

  lemma {:induction false} FromReachesFirstLoaded(tries: nat -> Attempt, p: nat, k: nat)
    requires p <= k < MaxAttempts && tries(k).Loaded?
    requires forall i :: p <= i < k ==> tries(i) == Refused
    ensures FetchFrom(tries, p) == Fetched(Some(tries(k).page), k + 1)
    decreases k - p
  {
    if p < k {
      FromReachesFirstLoaded(tries, p + 1, k);
    }
  }
}
