/** The page loops of the worker (internal/worker/runner.go) against the page store's persisted cursor. */
module Collection {
  import opened Text

  const PAGE_SIZE := 100

  // ----- cursors -----

  function Digit(n: nat): (c: char)
    requires n < 10
  {
    (48 + n) as char
  }

  /** `strconv.Itoa` for nonnegative numbers. */
  function Itoa(n: nat): (s: string)
    ensures s != "" && forall i :: 0 <= i < |s| ==> '0' <= s[i] <= '9'
  {
    if n < 10 then [Digit(n)] else Itoa(n / 10) + [Digit(n % 10)]
  }

  /** `strconv.Atoi` for unsigned decimal numerals. */
  function Atoi(s: string): (n: Option<nat>) {
    if s == "" then None
    else
      var last := s[|s| - 1];
      if !('0' <= last <= '9') then None
      else if |s| == 1 then Some(last as int - 48)
      else match Atoi(s[..|s| - 1])
           case None => None
           case Some(n) => Some(10 * n + (last as int - 48))
  }

  lemma {:induction false} AtoiItoa(n: nat)
    ensures Atoi(Itoa(n)) == Some(n)
  {
    if n >= 10 {
      AtoiItoa(n / 10);
      var s := Itoa(n);
      assert s[..|s| - 1] == Itoa(n / 10);
    }
  }

  /** A page with fewer than 100 entries is taken to be the last. */
  function NextCursor(page: int, count: nat): (cursor: string)
    requires page >= 0
  {
    if count < PAGE_SIZE then "complete" else Itoa(page + 1)
  }

  /** Where a stored cursor resumes. */
  function CheckpointPage(cursor: string): (page: Option<int>)
    ensures page.Some? ==> page.value > 0
  {
    if cursor == "complete" || cursor == "" then Some(1)
    else
      match Atoi(cursor)
      case None => None
      case Some(n) => if n > 0 then Some(n) else None
  }

  /** What NextCursor writes, CheckpointPage reads back. */
  lemma CursorRoundTrip(page: int, count: nat)
    requires page >= 1
    ensures CheckpointPage(NextCursor(page, count)) == Some(if count < PAGE_SIZE then 1 else page + 1)
  {
    if count >= PAGE_SIZE {
      AtoiItoa(page + 1);
      assert Itoa(page + 1)[0] != "complete"[0];
    }
  }

  // ----- the loop -----

  /** One committed page with its number of entries. */
  datatype Commit = Commit(page: int, count: nat)

  /** A pass over the pages: 1, 2, 3 and so on, each full except possibly the last. */
  ghost predicate IsPass(pass: seq<Commit>) {
    forall i :: 0 <= i < |pass| ==> pass[i].page == i + 1 && (i < |pass| - 1 ==> pass[i].count >= PAGE_SIZE)
  }

  /** The persisted cursor of one scope. Facts and cursor are written in one transaction; `pass` records the
      pages committed since page 1 was last committed. */
  class PageStore {
    var cursor: string
    ghost var pass: seq<Commit>

    ghost predicate Valid()
      reads this
    {
      IsPass(pass) && cursor == if pass == [] then "" else NextCursor(|pass|, pass[|pass| - 1].count)
    }

    constructor ()
      ensures Valid() && cursor == "" && pass == []
    {
      cursor := "";
      pass := [];
    }

    /** The page that a resumed collection asks for next: the first one not committed, or page 1 of a new pass. */
    lemma NextPage()
      requires Valid()
      ensures CheckpointPage(cursor) == Some(if pass == [] || pass[|pass| - 1].count < PAGE_SIZE then 1 else |pass| + 1)
    {
      if pass != [] { CursorRoundTrip(|pass|, pass[|pass| - 1].count); }
    }

    method CommitPage(page: int, count: nat)
      requires Valid() && CheckpointPage(cursor) == Some(page)
      modifies this
      ensures Valid() && cursor == NextCursor(page, count)
      ensures pass == (if page == 1 then [] else old(pass)) + [Commit(page, count)] && |pass| == page
    {
      NextPage();
      hide CheckpointPage, NextCursor;
      cursor := NextCursor(page, count);
      pass := (if page == 1 then [] else pass) + [Commit(page, count)];
    }
  }

  /** n is the first page with fewer than 100 entries. */
  ghost predicate FirstShort(counts: nat -> nat, n: int) {
    n >= 1 && counts(n) < PAGE_SIZE && forall p :: 1 <= p < n ==> counts(p) >= PAGE_SIZE
  }

  ghost predicate TakenFrom(pass: seq<Commit>, counts: nat -> nat) {
    forall i :: 0 <= i < |pass| ==> pass[i].page == i + 1 && pass[i].count == counts(i + 1)
  }

  /** One attempt of a collect loop over pages with the given numbers of entries. It resumes from the stored
      cursor, and an error, a lost lease or a shutdown may end it after any number of committed pages. No page
      is skipped across attempts, and an attempt that completes has committed exactly the pages up to the first
      short one; one that does not complete saw only full pages. */
  method Collect(store: PageStore, counts: nat -> nat, patience: nat) returns (done: bool)
    requires store.Valid()
    modifies store
    ensures store.Valid()
    ensures old(TakenFrom(store.pass, counts)) ==> TakenFrom(store.pass, counts)
    ensures done ==> store.cursor == "complete"
    ensures done && old(TakenFrom(store.pass, counts)) ==> FirstShort(counts, |store.pass|)
    ensures !done && old(TakenFrom(store.pass, counts)) ==> forall p: nat :: 1 <= p <= patience ==> counts(p) >= PAGE_SIZE
  {
    hide CheckpointPage, NextCursor, TakenFrom, FirstShort;
    store.NextPage();
    var page := CheckpointPage(store.cursor).value;
    var left := patience;
    while left > 0
      invariant store.Valid() && CheckpointPage(store.cursor) == Some(page) && page >= 1
      invariant old(TakenFrom(store.pass, counts)) ==> TakenFrom(store.pass, counts)
      invariant left <= patience && (left < patience ==> |store.pass| == page - 1 >= patience - left > 0)
      invariant left < patience ==> store.pass[|store.pass| - 1].count >= PAGE_SIZE
    {
      left := left - 1;
      var count := counts(page);
      CursorRoundTrip(page, count);
      if TakenFrom(store.pass, counts) { TakenAppend(store, counts, page); }
      store.CommitPage(page, count);
      if count < PAGE_SIZE {
        CompleteCursor(page, count);
        if TakenFrom(store.pass, counts) { PassComplete(store.pass, counts); }
        return true;
      }
      page := page + 1;
    }
    if patience > 0 && TakenFrom(store.pass, counts) { AllFull(store.pass, counts); }
    return false;
  }

  lemma TakenAppend(store: PageStore, counts: nat -> nat, page: nat)
    requires store.Valid() && TakenFrom(store.pass, counts) && CheckpointPage(store.cursor) == Some(page)
    ensures TakenFrom((if page == 1 then [] else store.pass) + [Commit(page, counts(page))], counts)
  {
    store.NextPage();
    hide CheckpointPage, NextCursor;
  }

  lemma PassComplete(pass: seq<Commit>, counts: nat -> nat)
    requires IsPass(pass) && TakenFrom(pass, counts) && pass != [] && pass[|pass| - 1].count < PAGE_SIZE
    ensures FirstShort(counts, |pass|)
  {
    forall p | 1 <= p < |pass| ensures counts(p) >= PAGE_SIZE { assert pass[p - 1].count == counts(p); }
  }

  lemma AllFull(pass: seq<Commit>, counts: nat -> nat)
    requires IsPass(pass) && TakenFrom(pass, counts) && pass != [] && pass[|pass| - 1].count >= PAGE_SIZE
    ensures forall p: nat :: 1 <= p <= |pass| ==> counts(p) >= PAGE_SIZE
  {
    forall p: nat | 1 <= p <= |pass| ensures counts(p) >= PAGE_SIZE { assert pass[p - 1].count == counts(p); }
  }

  lemma CompleteCursor(page: int, count: nat)
    requires page >= 0 && count < PAGE_SIZE
    ensures NextCursor(page, count) == "complete"
  {
  }

  // ----- issues -----

  /** The issue endpoint also returns pull requests, which the client drops before the page is counted. */
  datatype Upstream = Upstream(entries: nat -> nat, pullRequests: nat -> nat) {
    ghost predicate Valid() { forall p :: pullRequests(p) <= entries(p) <= PAGE_SIZE }

    function Issues(): (counts: nat -> nat)
    {
      p => if entries(p) >= pullRequests(p) then entries(p) - pullRequests(p) else 0
    }
  }

  /** A collection that stops at the first page with fewer than 100 issues reaches the provider's last page
      exactly when no earlier page lists a pull request. */
  lemma IssuesCompleteIff(up: Upstream, last: int, stop: int)
    requires up.Valid() && FirstShort(up.entries, last) && FirstShort(up.Issues(), stop)
    ensures stop <= last
    ensures stop == last <==> forall p :: 1 <= p < last ==> up.pullRequests(p) == 0
  {
    assert up.Issues()(last) <= up.entries(last);
    if stop == last {
      forall p | 1 <= p < last ensures up.pullRequests(p) == 0 { assert up.Issues()(p) >= PAGE_SIZE; }
    }
    if stop < last {
      assert up.Issues()(stop) < PAGE_SIZE && up.entries(stop) >= PAGE_SIZE;
      assert up.pullRequests(stop) != 0;
    }
  }

  /** One pull request on a full first page of issues hides the issues of a later page. */
  lemma IssuesCanStopEarly()
    ensures exists up: Upstream, last: int, stop: int ::
              up.Valid() && FirstShort(up.entries, last) && FirstShort(up.Issues(), stop) && stop < last && up.Issues()(last) > 0
  {
    var up := Upstream((p: nat) => if p == 1 then 100 else 5, (p: nat) => if p == 1 then 1 else 0);
    assert up.Valid() && FirstShort(up.entries, 2) && FirstShort(up.Issues(), 1) && up.Issues()(2) == 5;
  }
}
