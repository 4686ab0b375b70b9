/** Paging of message search (farcaster-audio/hooks/useMessageSearch.ts). */
module MessageSearch {
  import opened JsStrings
  import opened Options
  import opened UniqueItems

  /** A hit, as far as paging looks at it. */
  datatype Hit = Hit(messageId: JsString, snippet: JsString)

  const MAX_EMPTY_PAGES_PER_FETCH := 10

  function HitKey(hit: Hit): JsString { hit.messageId }

  /**
   * One query's results on the server: a list of pages, the first read without a cursor,
   * every later one through the cursor the page before it returned.
   */
  type Pages = pages: seq<seq<Hit>> | pages != [] witness [[]]

  function NextCursor(pages: Pages, read: nat): Option<nat> {
    if read < |pages| then Some(read) else None
  }

  /** How far a fetch that starts at page `start` reads: to a page with hits, the end, or the guard. */
  function FetchEnd(pages: Pages, start: nat, budget: nat): (end: nat)
    requires start < |pages| && budget > 0
    ensures start < end <= |pages|
    decreases budget
  {
    if pages[start] != [] || start + 1 == |pages| || budget == 1 then start + 1
    else FetchEnd(pages, start + 1, budget - 1)
  }

  /** `fetchUntilHits`, every request answered. */
  method FetchUntilHits(pages: Pages, startCursor: nat) returns (items: seq<Hit>, nextCursor: Option<nat>)
    requires startCursor < |pages|
    ensures var end := FetchEnd(pages, startCursor, MAX_EMPTY_PAGES_PER_FETCH);
      nextCursor == NextCursor(pages, end) && items == Flatten(pages[startCursor..end])
  {
    var cursor := startCursor;
    for emptyPages := 0 to MAX_EMPTY_PAGES_PER_FETCH
      invariant startCursor <= cursor < |pages|
      invariant Flatten(pages[startCursor..cursor]) == []
      invariant emptyPages < MAX_EMPTY_PAGES_PER_FETCH ==>
        FetchEnd(pages, startCursor, MAX_EMPTY_PAGES_PER_FETCH)
        == FetchEnd(pages, cursor, MAX_EMPTY_PAGES_PER_FETCH - emptyPages)
      invariant emptyPages == MAX_EMPTY_PAGES_PER_FETCH ==>
        FetchEnd(pages, startCursor, MAX_EMPTY_PAGES_PER_FETCH) == cursor
    {
      var page := pages[cursor];
      FlattenGrows(pages, startCursor, cursor);
      nextCursor := NextCursor(pages, cursor + 1);
      if page != [] || nextCursor.None? {
        return page, nextCursor;
      }
      cursor := cursor + 1;
    }
    return [], Some(cursor);
  }

  function Flatten(pages: seq<seq<Hit>>): seq<Hit> {
    if pages == [] then [] else Flatten(pages[..|pages| - 1]) + pages[|pages| - 1]
  }

  lemma FlattenGrows(pages: Pages, from: nat, to: nat)
    requires from <= to < |pages|
    ensures Flatten(pages[from..to + 1]) == Flatten(pages[from..to]) + pages[to]
  {
    assert pages[from..to + 1][..to - from] == pages[from..to];
  }

  /** `appendUniqueHits`. */
  method AppendUniqueHits(previous: seq<Hit>, incoming: seq<Hit>) returns (hits: seq<Hit>)
    ensures hits == previous + UniqueBeyond(incoming, HitKey, Keys(previous, HitKey))
  {
    var seen := Keys(previous, HitKey);
    var added: seq<Hit> := [];
    ghost var rest := incoming;
    for i := 0 to |incoming|
      invariant rest == incoming[i..]
      invariant UniqueBeyond(incoming, HitKey, Keys(previous, HitKey)) == added + UniqueBeyond(rest, HitKey, seen)
    {
      assert rest[0] == incoming[i];
      if incoming[i].messageId !in seen {
        seen := seen + {incoming[i].messageId};
        added := added + [incoming[i]];
      }
      rest := rest[1..];
    }
    hits := if |added| > 0 then previous + added else previous;
  }

  /** What the hook shows: the hits, and the cursor left for `loadMore`. */
  datatype State = State(hits: seq<Hit>, cursor: Option<nat>)

  /** How the requests of one fetch end. */
  datatype Outcome = Answered | InvalidCursor(restartAnswered: bool) | Failed

  /** A fetch from page `start` appended to `previous`. */
  function Fetched(pages: Pages, previous: seq<Hit>, start: nat): State
    requires start < |pages|
  {
    var end := FetchEnd(pages, start, MAX_EMPTY_PAGES_PER_FETCH);
    State(previous + UniqueBeyond(Flatten(pages[start..end]), HitKey, Keys(previous, HitKey)), NextCursor(pages, end))
  }

  /** `loadMore`: continue at the cursor; on `invalid_cursor` start over once and replace the hits. */
  function LoadMore(pages: Pages, s: State, outcome: Outcome): State
    requires s.cursor.Some? ==> s.cursor.value < |pages|
  {
    if s.cursor.None? then s
    else match outcome
      case Answered => Fetched(pages, s.hits, s.cursor.value)
      case InvalidCursor(restartAnswered) => if restartAnswered then Fetched(pages, [], 0) else s
      case Failed => s
  }

  /** The hits are those of the first `read` pages, each message once, where it first occurs. */
  ghost predicate ShowsFirst(pages: Pages, s: State, read: nat) {
    read <= |pages| && s.hits == Unique(Flatten(pages[..read]), HitKey) && s.cursor == NextCursor(pages, read)
  }

  lemma {:induction false} FlattenSplits(a: seq<seq<Hit>>, b: seq<seq<Hit>>)
    ensures Flatten(a + b) == Flatten(a) + Flatten(b)
  {
    if b == [] {
      assert a + b == a;
    } else {
      var front := b[..|b| - 1];
      FlattenSplits(a, front);
      assert (a + b)[..|a + b| - 1] == a + front;
      assert Flatten(a) + (Flatten(front) + b[|b| - 1]) == Flatten(a) + Flatten(front) + b[|b| - 1];
    }
  }

  lemma FetchExtends(pages: Pages, s: State, read: nat)
    requires ShowsFirst(pages, s, read) && read < |pages|
    ensures ShowsFirst(pages, Fetched(pages, s.hits, read), FetchEnd(pages, read, MAX_EMPTY_PAGES_PER_FETCH))
  {
    var end := FetchEnd(pages, read, MAX_EMPTY_PAGES_PER_FETCH);
    FlattenSplits(pages[..read], pages[read..end]);
    assert pages[..end] == pages[..read] + pages[read..end];
    UniqueSplits(Flatten(pages[..read]), Flatten(pages[read..end]), HitKey, {});
    UniqueKeepsKeys(Flatten(pages[..read]), HitKey);
    assert {} + Keys(Flatten(pages[..read]), HitKey) == Keys(s.hits, HitKey);
  }

  function Run(pages: Pages, s: State, outcomes: seq<Outcome>): State
    requires s.cursor.Some? ==> s.cursor.value < |pages|
    decreases |outcomes|
  {
    if outcomes == [] then s else Run(pages, LoadMore(pages, s, outcomes[0]), outcomes[1..])
  }

  /**
   * After any sequence of answered, restarted and failed fetches the hits are exactly those of some
   * first pages, deduplicated, and the cursor is the next page: none is skipped, none shown twice.
   */
  lemma {:induction false} EveryRunShowsFirstPages(pages: Pages, s: State, read: nat, outcomes: seq<Outcome>)
    returns (last: nat)
    requires ShowsFirst(pages, s, read)
    ensures ShowsFirst(pages, Run(pages, s, outcomes), last)
    decreases |outcomes|
  {
    if outcomes == [] {
      return read;
    }
    var next := LoadMore(pages, s, outcomes[0]);
    var reached := read;
    if s.cursor.Some? && outcomes[0].Answered? {
      FetchExtends(pages, s, read);
      reached := FetchEnd(pages, read, MAX_EMPTY_PAGES_PER_FETCH);
    } else if s.cursor.Some? && outcomes[0] == InvalidCursor(true) {
      assert pages[..0] == [];
      FetchExtends(pages, State([], Some(0)), 0);
      reached := FetchEnd(pages, 0, MAX_EMPTY_PAGES_PER_FETCH);
    }
    last := EveryRunShowsFirstPages(pages, next, reached, outcomes[1..]);
  }

  /** The first load, and what it shows. */
  lemma FirstLoadShowsFirstPages(pages: Pages)
    ensures ShowsFirst(pages, Fetched(pages, [], 0), FetchEnd(pages, 0, MAX_EMPTY_PAGES_PER_FETCH))
  {
    assert pages[..0] == [];
    FetchExtends(pages, State([], Some(0)), 0);
  }

  lemma {:induction false} EmptyFetchSpendsItsBudget(pages: Pages, start: nat, budget: nat)
    requires start < |pages| && 0 < budget
    ensures var end := FetchEnd(pages, start, budget);
      end <= start + budget &&
      (forall i :: start <= i < end - 1 ==> pages[i] == []) &&
      (end < |pages| && pages[end - 1] == [] ==> end == start + budget)
    decreases budget
  {
    if !(pages[start] != [] || start + 1 == |pages| || budget == 1) {
      EmptyFetchSpendsItsBudget(pages, start + 1, budget - 1);
    }
  }

  /** A fetch reads ten pages at most, and one that brings no hit leaves a cursor only after ten empty pages in a row. */
  lemma EmptyFetchMeansTenEmptyPages(pages: Pages, start: nat)
    requires start < |pages|
    ensures var next := Fetched(pages, [], start);
      (next.cursor.Some? ==> next.cursor.value <= start + 10) &&
      (next.cursor.None? ==> |pages| <= start + 10) &&
      (next.hits == [] && next.cursor.Some? ==>
        next.cursor.value == start + 10 && forall i :: start <= i < start + 10 ==> pages[i] == [])
  {
    var end := FetchEnd(pages, start, MAX_EMPTY_PAGES_PER_FETCH);
    EmptyFetchSpendsItsBudget(pages, start, MAX_EMPTY_PAGES_PER_FETCH);
    FetchedHits(pages, start, end);
  }

  /** A page with hits shows when nothing was shown before. */
  lemma FetchedHits(pages: Pages, start: nat, end: nat)
    requires start < end <= |pages|
    ensures pages[end-1] != [] ==> UniqueBeyond(Flatten(pages[start..end]), HitKey, Keys([], HitKey)) != []
  {
    var all := Flatten(pages[start..end]);
    assert pages[start..end][end - start - 1] == pages[end-1];
    if pages[end-1] != [] {
      assert all != [];
      assert HitKey(all[0]) !in Keys([], HitKey);
    }
  }

  /**
   * `loadMore` with a page left: an answer brings the hits of at least one page
   * more; an expired cursor starts over, if that is answered; a failure
   * changes nothing. Without a page left nothing happens.
   */
  lemma LoadMoreGoesOn(pages: Pages, s: State, read: nat, outcome: Outcome) returns (reached: nat)
    requires ShowsFirst(pages, s, read)
    ensures ShowsFirst(pages, LoadMore(pages, s, outcome), reached)
    ensures read < |pages| && outcome.Answered? ==> reached > read
    ensures read < |pages| && outcome == InvalidCursor(true) ==>
      0 < reached && forall i :: 0 <= i < reached - 1 ==> pages[i] == []
    ensures read == |pages| || outcome.Failed? || outcome == InvalidCursor(false) ==>
      LoadMore(pages, s, outcome) == s && reached == read
  {
    reached := read;
    if s.cursor.Some? && outcome.Answered? {
      FetchExtends(pages, s, read);
      reached := FetchEnd(pages, read, MAX_EMPTY_PAGES_PER_FETCH);
    } else if s.cursor.Some? && outcome == InvalidCursor(true) {
      assert pages[..0] == [];
      FetchExtends(pages, State([], Some(0)), 0);
      reached := FetchEnd(pages, 0, MAX_EMPTY_PAGES_PER_FETCH);
      EmptyFetchSpendsItsBudget(pages, 0, MAX_EMPTY_PAGES_PER_FETCH);
    }
  }

  function Answers(n: nat): seq<Outcome> {
    seq(n, i => Answered)
  }

  /** As many answered loads as there are pages left show every hit once and leave no cursor. */
  lemma {:induction false} LoadingMoreShowsEveryHit(pages: Pages, s: State, read: nat, n: nat)
    requires ShowsFirst(pages, s, read) && read + n >= |pages|
    ensures Run(pages, s, Answers(n)) == State(Unique(Flatten(pages), HitKey), None)
    decreases n
  {
    if n == 0 {
      assert pages[..|pages|] == pages;
    } else {
      var reached := LoadMoreGoesOn(pages, s, read, Answered);
      assert Answers(n)[1..] == Answers(n - 1);
      LoadingMoreShowsEveryHit(pages, LoadMore(pages, s, Answered), reached, n - 1);
    }
  }
}
