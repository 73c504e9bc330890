/** Contribution concentration (internal/contributor/contributor.go, Aggregate); shares are real numbers. */
module Contributors {
  import opened Text
  import opened Sorting
  import opened TimeWindow

  datatype LinkStatus = Unresolved | Verified | AnalystConfirmed

  datatype Commit = Commit(accountID: string, identityID: string, link: LinkStatus, at: int, defaultBranch: bool, merge: bool, bot: bool)

  datatype Contributor = Contributor(key: string, commits: int, status: LinkStatus)

  datatype Shares = Shares(topOne: real, topThree: real)

  datatype Summary = Summary(active: int, shares: Option<Shares>, resolutionCoverage: real, contributors: seq<Contributor>)

  /** Commits that count: on the default branch, neither merges nor bots, inside the half-open window, with an account. */
  predicate Counts(c: Commit, w: Window) {
    c.defaultBranch && !c.merge && !c.bot && w.Contains(c.at) && !Blank(c.accountID)
  }

  predicate Resolved(c: Commit) { c.link != Unresolved && !Blank(c.identityID) }

  /** Only a verified or confirmed identity merges accounts. */
  function IdentityKey(c: Commit): (r: (string, LinkStatus)) {
    if Resolved(c) then ("identity:" + c.identityID, c.link) else ("account:" + c.accountID, Unresolved)
  }

  /** Which commits count, and which accounts are merged. */
  lemma CountsIff(c: Commit, w: Window)
    ensures Counts(c, w) <==> c.defaultBranch && !c.merge && !c.bot && w.from <= c.at && c.at < w.to && !Blank(c.accountID)
    ensures Resolved(c) <==> (c.link == Verified || c.link == AnalystConfirmed) && !Blank(c.identityID)
    ensures IdentityKey(c).1 == if Resolved(c) then c.link else Unresolved
  {
  }

  /** Two commits have one key exactly when both are resolved to one identity, or neither is and they share the account:
      unverified accounts are never merged. */
  lemma SameKeyIff(c: Commit, d: Commit)
    ensures IdentityKey(c).0 == IdentityKey(d).0 <==>
            || (Resolved(c) && Resolved(d) && c.identityID == d.identityID)
            || (!Resolved(c) && !Resolved(d) && c.accountID == d.accountID)
  {
    hide Blank;
    PrefixInjective("identity:", c.identityID, d.identityID);
    PrefixInjective("account:", c.accountID, d.accountID);
    FirstLetter("identity:", c.identityID);
    FirstLetter("identity:", d.identityID);
    FirstLetter("account:", c.accountID);
    FirstLetter("account:", d.accountID);
  }

  lemma PrefixInjective(prefix: string, a: string, b: string)
    ensures prefix + a == prefix + b <==> a == b
  {
    assert (prefix + a)[|prefix|..] == a && (prefix + b)[|prefix|..] == b;
  }

  lemma FirstLetter(prefix: string, a: string)
    requires prefix != ""
    ensures prefix + a != "" && (prefix + a)[0] == prefix[0]
  {
  }

  // ----- counting -----

  function CountIf(commits: seq<Commit>, p: Commit -> bool): (n: nat)
    ensures n <= |commits|
  {
    if commits == [] then 0 else CountIf(commits[..|commits| - 1], p) + if p(commits[|commits| - 1]) then 1 else 0
  }

  lemma CountAppend(commits: seq<Commit>, c: Commit, p: Commit -> bool)
    ensures CountIf(commits + [c], p) == CountIf(commits, p) + if p(c) then 1 else 0
  {
    assert (commits + [c])[..|commits|] == commits;
  }

  lemma {:induction false} CountConcat(a: seq<Commit>, b: seq<Commit>, p: Commit -> bool)
    ensures CountIf(a + b, p) == CountIf(a, p) + CountIf(b, p)
  {
    if b == [] {
      assert a + b == a;
    } else {
      assert (a + b)[..|a + b| - 1] == a + b[..|b| - 1];
      CountConcat(a, b[..|b| - 1], p);
    }
  }

  lemma {:induction false} CountPermutes(a: seq<Commit>, b: seq<Commit>, p: Commit -> bool)
    requires multiset(a) == multiset(b)
    ensures CountIf(a, p) == CountIf(b, p)
  {
    if a == [] {
      assert |multiset(b)| == 0;
    } else {
      hide *;
      var i := HeadIn(a, b);
      CountPermutes(a[1..], b[..i] + b[i + 1..], p);
      CountConcat(b[..i], b[i + 1..], p);
      CountConcat(b[..i], [b[i]] + b[i + 1..], p);
      CountConcat([b[i]], b[i + 1..], p);
      CountConcat([a[0]], a[1..], p);
      assert a == [a[0]] + a[1..] && b == b[..i] + ([b[i]] + b[i + 1..]);
    }
  }

  function IsCounted(w: Window): (p: Commit -> bool) { c => Counts(c, w) }

  function IsResolved(w: Window): (p: Commit -> bool) { c => Counts(c, w) && Resolved(c) }

  function HasKey(w: Window, key: string): (p: Commit -> bool) { c => Counts(c, w) && IdentityKey(c).0 == key }

  function CountOf(commits: seq<Commit>, w: Window, key: string): (n: nat) { CountIf(commits, HasKey(w, key)) }

  // ----- the table -----

  /** More commits first, then the smaller key. */
  predicate Before(a: Contributor, b: Contributor) {
    a.commits > b.commits || (a.commits == b.commits && Compare(a.key, b.key) <= 0)
  }

  lemma BeforeTotal()
    ensures TotalPreorder(Before)
  {
    forall a: Contributor, b: Contributor ensures Before(a, b) || Before(b, a) { CompareOrders(a.key, b.key, ""); }
    forall a: Contributor, b: Contributor, c: Contributor | Before(a, b) && Before(b, c) ensures Before(a, c) {
      CompareOrders(a.key, b.key, c.key);
    }
  }

  /** The status that the last counted commit of a key shows. */
  function StatusOf(commits: seq<Commit>, w: Window, key: string): (s: Option<LinkStatus>) {
    if commits == [] then None
    else
      var last := commits[|commits| - 1];
      if HasKey(w, key)(last) then Some(IdentityKey(last).1) else StatusOf(commits[..|commits| - 1], w, key)
  }

  ghost predicate ShowsStatuses(commits: seq<Commit>, w: Window, rows: seq<Contributor>) {
    forall x :: x in rows ==> StatusOf(commits, w, x.key) == Some(x.status)
  }

  /** One row per key that occurs, with its number of commits. */
  ghost predicate IsTable(commits: seq<Commit>, w: Window, rows: seq<Contributor>) {
    && (forall i, j :: 0 <= i < j < |rows| ==> rows[i].key != rows[j].key)
    && (forall x :: x in rows ==> x.commits == CountOf(commits, w, x.key) && x.commits > 0)
    && (forall key :: CountOf(commits, w, key) > 0 ==> exists x :: x in rows && x.key == key)
  }

  function Sum(rows: seq<Contributor>): (n: int) {
    if rows == [] then 0 else Sum(rows[..|rows| - 1]) + rows[|rows| - 1].commits
  }

  function InKeys(w: Window, rows: seq<Contributor>): (p: Commit -> bool) {
    c => Counts(c, w) && exists i :: 0 <= i < |rows| && rows[i].key == IdentityKey(c).0
  }

  /** Distinct rows together count exactly the commits whose key they carry. */
  lemma {:induction false} SumCounts(commits: seq<Commit>, w: Window, rows: seq<Contributor>)
    requires forall i, j :: 0 <= i < j < |rows| ==> rows[i].key != rows[j].key
    requires forall i :: 0 <= i < |rows| ==> rows[i].commits == CountOf(commits, w, rows[i].key)
    ensures Sum(rows) == CountIf(commits, InKeys(w, rows))
  {
    if rows == [] {
      NoneCounted(commits, InKeys(w, rows));
    } else {
      var front, last := rows[..|rows| - 1], rows[|rows| - 1];
      SumCounts(commits, w, front);
      forall c ensures InKeys(w, rows)(c) <==> InKeys(w, front)(c) || HasKey(w, last.key)(c) {
        if HasKey(w, last.key)(c) { assert rows[|rows| - 1].key == IdentityKey(c).0; }
      }
      forall c ensures !(InKeys(w, front)(c) && HasKey(w, last.key)(c)) {}
      CountEither(commits, InKeys(w, rows), InKeys(w, front), HasKey(w, last.key));
    }
  }

  lemma {:induction false} NoneCounted(commits: seq<Commit>, p: Commit -> bool)
    requires forall c :: !p(c)
    ensures CountIf(commits, p) == 0
  {
    if commits != [] { NoneCounted(commits[..|commits| - 1], p); }
  }

  lemma {:induction false} CountEither(commits: seq<Commit>, p: Commit -> bool, q: Commit -> bool, r: Commit -> bool)
    requires forall c :: p(c) <==> q(c) || r(c)
    requires forall c :: !(q(c) && r(c))
    ensures CountIf(commits, p) == CountIf(commits, q) + CountIf(commits, r)
  {
    if commits != [] { CountEither(commits[..|commits| - 1], p, q, r); }
  }

  lemma {:induction false} CountSame(commits: seq<Commit>, p: Commit -> bool, q: Commit -> bool)
    requires forall c :: c in commits ==> p(c) == q(c)
    ensures CountIf(commits, p) == CountIf(commits, q)
  {
    if commits != [] {
      assert commits[|commits| - 1] in commits;
      CountSame(commits[..|commits| - 1], p, q);
    }
  }

  lemma {:induction false} KeyOccurs(commits: seq<Commit>, w: Window, c: Commit)
    requires c in commits && Counts(c, w)
    ensures CountOf(commits, w, IdentityKey(c).0) > 0
  {
    var n := |commits| - 1;
    if commits[n] != c {
      assert commits == commits[..n] + [commits[n]];
      KeyOccurs(commits[..n], w, c);
    }
  }

  /** Conservation: the rows account for every counted commit, once. */
  lemma CommitsConserved(commits: seq<Commit>, w: Window, rows: seq<Contributor>)
    requires IsTable(commits, w, rows)
    ensures Sum(rows) == CountIf(commits, IsCounted(w))
  {
    hide CountOf, CountIf;
    forall i | 0 <= i < |rows| ensures rows[i].commits == CountOf(commits, w, rows[i].key) { assert rows[i] in rows; }
    SumCounts(commits, w, rows);
    forall c | c in commits ensures InKeys(w, rows)(c) == IsCounted(w)(c) {
      if Counts(c, w) {
        KeyOccurs(commits, w, c);
        var x :| x in rows && x.key == IdentityKey(c).0;
        var i :| 0 <= i < |rows| && rows[i] == x;
      }
    }
    CountSame(commits, InKeys(w, rows), IsCounted(w));
  }

  // ----- Aggregate -----

  /** The counting loop's maps after some commits. */
  ghost predicate Tallied(commits: seq<Commit>, w: Window, counts: map<string, int>, statuses: map<string, LinkStatus>) {
    && counts.Keys == statuses.Keys
    && (forall key :: TalliedAt(commits, w, counts, key))
    && forall key :: StatusAt(commits, w, statuses, key)
  }

  ghost predicate TalliedAt(commits: seq<Commit>, w: Window, counts: map<string, int>, key: string) {
    (key in counts <==> CountOf(commits, w, key) > 0) && (key in counts ==> counts[key] == CountOf(commits, w, key))
  }

  ghost predicate StatusAt(commits: seq<Commit>, w: Window, statuses: map<string, LinkStatus>, key: string) {
    key in statuses ==> StatusOf(commits, w, key) == Some(statuses[key])
  }

  method Tally(commits: seq<Commit>, w: Window)
    returns (counts: map<string, int>, statuses: map<string, LinkStatus>, eligible: int, resolved: int)
    ensures Tallied(commits, w, counts, statuses)
    ensures eligible == CountIf(commits, IsCounted(w)) && resolved == CountIf(commits, IsResolved(w))
  {
    hide CountIf, Tallied, Blank;
    counts, statuses, eligible, resolved := map[], map[], 0, 0;
    NothingTallied(w);
    for i := 0 to |commits|
      invariant Tallied(commits[..i], w, counts, statuses)
      invariant eligible == CountIf(commits[..i], IsCounted(w)) && resolved == CountIf(commits[..i], IsResolved(w))
    {
      var c := commits[i];
      assert commits[..i + 1] == commits[..i] + [c];
      CountAppend(commits[..i], c, IsCounted(w));
      CountAppend(commits[..i], c, IsResolved(w));
      TallyOne(commits[..i], w, counts, statuses, c);
      if Counts(c, w) {
        var (key, status) := IdentityKey(c);
        counts := counts[key := (if key in counts then counts[key] else 0) + 1];
        statuses := statuses[key := status];
        eligible := eligible + 1;
        if status != Unresolved { resolved := resolved + 1; }
      }
    }
    assert commits[..|commits|] == commits;
  }

  lemma TalliedKeys(commits: seq<Commit>, w: Window, counts: map<string, int>, statuses: map<string, LinkStatus>)
    requires Tallied(commits, w, counts, statuses)
    ensures counts.Keys == statuses.Keys
  {
  }

  lemma NothingTallied(w: Window)
    ensures Tallied([], w, map[], map[]) && CountIf([], IsCounted(w)) == 0 && CountIf([], IsResolved(w)) == 0
  {
    forall key ensures TalliedAt([], w, map[], key) && StatusAt([], w, map[], key) {}
  }

  lemma TallyOne(commits: seq<Commit>, w: Window, counts: map<string, int>, statuses: map<string, LinkStatus>, c: Commit)
    requires Tallied(commits, w, counts, statuses)
    ensures var (key, status) := IdentityKey(c);
            if Counts(c, w)
            then Tallied(commits + [c], w, counts[key := (if key in counts then counts[key] else 0) + 1], statuses[key := status])
            else Tallied(commits + [c], w, counts, statuses)
  {
    hide CountIf;
    var k := IdentityKey(c).0;
    var counts' := if Counts(c, w) then counts[k := (if k in counts then counts[k] else 0) + 1] else counts;
    hide StatusOf, Counts, IdentityKey;
    var statuses' := if Counts(c, w) then statuses[k := IdentityKey(c).1] else statuses;
    forall key ensures TalliedAt(commits + [c], w, counts', key) {
      CountAppend(commits, c, HasKey(w, key));
      assert TalliedAt(commits, w, counts, key);
    }
    forall key ensures StatusAt(commits + [c], w, statuses', key) {
      StatusAppend(commits, c, w, key);
      assert StatusAt(commits, w, statuses, key);
    }
  }

  lemma StatusAppend(commits: seq<Commit>, c: Commit, w: Window, key: string)
    ensures StatusOf(commits + [c], w, key) == if HasKey(w, key)(c) then Some(IdentityKey(c).1) else StatusOf(commits, w, key)
  {
    assert (commits + [c])[..|commits|] == commits;
  }

  function Top(rows: seq<Contributor>, n: nat): (sum: int) { Sum(if |rows| > n then rows[..n] else rows) }

  method Aggregate(commits: seq<Commit>, w: Window) returns (r: Summary)
    ensures var eligible := CountIf(commits, IsCounted(w));
            && (eligible == 0 ==> r == Summary(0, None, 0.0, []))
            && (eligible > 0 ==>
                  && IsTable(commits, w, r.contributors) && Sorted(r.contributors, Before)
                  && ShowsStatuses(commits, w, r.contributors)
                  && r.active == |r.contributors| > 0
                  && r.resolutionCoverage == CountIf(commits, IsResolved(w)) as real / eligible as real
                  && r.shares == Some(Shares(r.contributors[0].commits as real / eligible as real,
                                             Top(r.contributors, 3) as real / eligible as real)))
  {
    hide CountIf, StatusOf, Tallied, IsTable, ShowsStatuses;
    var counts, statuses, eligible, resolved := Tally(commits, w);
    assert counts.Keys == statuses.Keys by { TalliedKeys(commits, w, counts, statuses); }
    if eligible == 0 { return Summary(0, None, 0.0, []); }
    var keys := Elements(counts.Keys);
    var rows: seq<Contributor> := [];
    for i := 0 to |keys|
      invariant |rows| == i && forall k :: 0 <= k < i ==> rows[k] == Contributor(keys[k], counts[keys[k]], statuses[keys[k]])
    {
      rows := rows + [Contributor(keys[i], counts[keys[i]], statuses[keys[i]])];
    }
    Rows(commits, w, counts, statuses, keys, rows);
    BeforeTotal();
    ghost var unsorted := rows;
    rows := SortFunc(rows, Before);
    SortedTable(commits, w, unsorted, rows);
    TableNonempty(commits, w, rows);
    var top := TopThree(rows);
    return Summary(|rows|, Some(Shares(rows[0].commits as real / eligible as real, top as real / eligible as real)),
                   resolved as real / eligible as real, rows);
  }

  method TopThree(rows: seq<Contributor>) returns (sum: int)
    ensures sum == Top(rows, 3)
  {
    sum := 0;
    var n := if |rows| < 3 then |rows| else 3;
    for i := 0 to n
      invariant sum == Sum(rows[..i])
    {
      assert rows[..i + 1][..i] == rows[..i];
      sum := sum + rows[i].commits;
    }
    assert |rows| <= 3 ==> rows[..n] == rows;
  }

  lemma Rows(commits: seq<Commit>, w: Window, counts: map<string, int>, statuses: map<string, LinkStatus>, keys: seq<string>, rows: seq<Contributor>)
    requires Tallied(commits, w, counts, statuses) && Distinct(keys) && (forall key :: key in keys <==> key in counts)
    requires |rows| == |keys| && forall k :: 0 <= k < |keys| ==>
               keys[k] in counts && keys[k] in statuses && rows[k] == Contributor(keys[k], counts[keys[k]], statuses[keys[k]])
    ensures IsTable(commits, w, rows) && ShowsStatuses(commits, w, rows)
  {
    hide CountOf, StatusOf;
    forall x | x in rows ensures x.commits == CountOf(commits, w, x.key) && x.commits > 0 {
      var k :| 0 <= k < |rows| && rows[k] == x;
      assert TalliedAt(commits, w, counts, keys[k]);
    }
    forall x | x in rows ensures StatusOf(commits, w, x.key) == Some(x.status) {
      var k :| 0 <= k < |rows| && rows[k] == x;
      assert StatusAt(commits, w, statuses, keys[k]);
    }
    forall key | CountOf(commits, w, key) > 0 ensures exists x :: x in rows && x.key == key {
      assert TalliedAt(commits, w, counts, key);
      var k :| 0 <= k < |keys| && keys[k] == key;
      assert rows[k] in rows;
    }
  }

  lemma SortedTable(commits: seq<Commit>, w: Window, rows: seq<Contributor>, sorted: seq<Contributor>)
    requires IsTable(commits, w, rows) && ShowsStatuses(commits, w, rows) && multiset(sorted) == multiset(rows)
    ensures IsTable(commits, w, sorted) && ShowsStatuses(commits, w, sorted)
  {
    hide CountOf, StatusOf;
    PermutationDistinct(rows, sorted);
    forall i, j | 0 <= i < j < |sorted| ensures sorted[i].key != sorted[j].key {
      assert sorted[i] in rows && sorted[j] in rows && sorted[i] != sorted[j];
    }
  }

  lemma TableNonempty(commits: seq<Commit>, w: Window, rows: seq<Contributor>)
    requires IsTable(commits, w, rows) && CountIf(commits, IsCounted(w)) > 0
    ensures rows != []
  {
    CommitsConserved(commits, w, rows);
  }

  /** The order of the rows: more commits first, equal counts in the order of their keys. */
  lemma RowOrder(rows: seq<Contributor>, i: nat, j: nat)
    requires Sorted(rows, Before) && i < j < |rows|
    ensures || rows[i].commits > rows[j].commits
            || (rows[i].commits == rows[j].commits && (rows[i].key == rows[j].key || exists n: nat :: Precedes(rows[i].key, rows[j].key, n)))
  {
    assert Before(rows[i], rows[j]);
    CompareIs(rows[i].key, rows[j].key);
    CompareOrders(rows[i].key, rows[j].key, "");
  }

  // ----- concentration -----

  function Pick(rows: seq<Contributor>, choice: seq<int>): (r: seq<Contributor>)
    requires forall i :: 0 <= i < |choice| ==> 0 <= choice[i] < |rows|
    ensures |r| == |choice|
  {
    seq(|choice|, i requires 0 <= i < |choice| => rows[choice[i]])
  }

  /** Distinct positions, in ascending order. */
  ghost predicate IsChoice(rows: seq<Contributor>, choice: seq<int>) {
    && (forall i :: 0 <= i < |choice| ==> 0 <= choice[i] < |rows|)
    && (forall i, j :: 0 <= i < j < |choice| ==> choice[i] < choice[j])
  }

  lemma {:induction false} ChoiceSpreads(rows: seq<Contributor>, choice: seq<int>, i: nat)
    requires IsChoice(rows, choice) && i < |choice|
    ensures i <= choice[i]
  {
    if i > 0 { ChoiceSpreads(rows, choice, i - 1); }
  }

  lemma {:induction false} ChoiceAtMost(rows: seq<Contributor>, choice: seq<int>)
    requires Sorted(rows, Before) && IsChoice(rows, choice)
    ensures |choice| <= |rows| && Sum(Pick(rows, choice)) <= Sum(rows[..|choice|])
  {
    if choice != [] {
      var n := |choice| - 1;
      ChoiceSpreads(rows, choice, n);
      var front := choice[..n];
      ChoiceAtMost(rows, front);
      assert Pick(rows, choice)[..n] == Pick(rows, front);
      assert rows[..n + 1][..n] == rows[..n];
      assert choice[n] > n ==> Before(rows[n], rows[choice[n]]);
    }
  }

  lemma {:induction false} SumGrows(rows: seq<Contributor>, i: nat, j: nat)
    requires i <= j <= |rows| && forall k :: 0 <= k < |rows| ==> rows[k].commits >= 0
    ensures Sum(rows[..i]) <= Sum(rows[..j])
  {
    if i < j {
      SumGrows(rows, i, j - 1);
      assert rows[..j][..j - 1] == rows[..j - 1];
    }
  }

  /** The top-three sum is the largest over every choice of at most three contributors. */
  lemma TopThreeMaximal(commits: seq<Commit>, w: Window, rows: seq<Contributor>, choice: seq<int>)
    requires IsTable(commits, w, rows) && Sorted(rows, Before) && IsChoice(rows, choice) && |choice| <= 3
    ensures Sum(Pick(rows, choice)) <= Top(rows, 3)
  {
    forall k | 0 <= k < |rows| ensures rows[k].commits >= 0 { assert rows[k] in rows; }
    ChoiceAtMost(rows, choice);
    var n := if |rows| < 3 then |rows| else 3;
    SumGrows(rows, |choice|, n);
    assert |rows| <= 3 ==> rows[..n] == rows;
  }

  /** The shares are ordered fractions of the whole. */
  lemma SharesOrdered(commits: seq<Commit>, w: Window, rows: seq<Contributor>)
    requires IsTable(commits, w, rows) && Sorted(rows, Before) && CountIf(commits, IsCounted(w)) > 0
    ensures var eligible := CountIf(commits, IsCounted(w));
            && rows != [] && 0 < rows[0].commits <= Top(rows, 3) <= eligible
            && 0.0 < rows[0].commits as real / eligible as real <= Top(rows, 3) as real / eligible as real <= 1.0
  {
    hide CountIf;
    CommitsConserved(commits, w, rows);
    assert rows[0] in rows;
    forall k | 0 <= k < |rows| ensures rows[k].commits >= 0 { assert rows[k] in rows; }
    var n := if |rows| < 3 then |rows| else 3;
    SumGrows(rows, 1, n);
    SumGrows(rows, n, |rows|);
    assert rows[..1][..0] == [] && Sum(rows[..1]) == rows[0].commits;
    assert rows[..|rows|] == rows;
    var eligible := CountIf(commits, IsCounted(w));
    Fractions(rows[0].commits, Top(rows, 3), eligible);
  }

  lemma Fractions(a: int, b: int, c: int)
    requires 0 < a <= b <= c
    ensures 0.0 < a as real / c as real <= b as real / c as real <= 1.0
  {
    Quotient(a, b, c);
    Quotient(b, c, c);
  }

  lemma Quotient(a: int, b: int, c: int)
    requires 0 < a <= b && 0 < c
    ensures 0.0 < a as real / c as real <= b as real / c as real
  {
    assert a as real / c as real * c as real == a as real;
    assert b as real / c as real * c as real == b as real;
  }

  // ----- the order of the commits -----

  function Bare(rows: seq<Contributor>): (r: seq<Contributor>)
    ensures |r| == |rows| && forall i :: 0 <= i < |rows| ==> r[i] == rows[i].(status := Unresolved)
  {
    seq(|rows|, i requires 0 <= i < |rows| => rows[i].(status := Unresolved))
  }

  lemma BareSorted(rows: seq<Contributor>)
    requires Sorted(rows, Before)
    ensures Sorted(Bare(rows), Before)
  {
    forall i, j | 0 <= i < j < |rows| ensures Before(Bare(rows)[i], Bare(rows)[j]) { assert Before(rows[i], rows[j]); }
  }

  lemma SameRows(a: seq<Commit>, b: seq<Commit>, w: Window, rows: seq<Contributor>, other: seq<Contributor>, i: nat)
    requires multiset(a) == multiset(b) && IsTable(a, w, rows) && IsTable(b, w, other) && i < |rows|
    ensures Bare(rows)[i] in Bare(other)
  {
    hide CountIf;
    var x := rows[i];
    assert x in rows;
    CountPermutes(a, b, HasKey(w, x.key));
    assert CountOf(b, w, x.key) > 0;
    var y :| y in other && y.key == x.key;
    var j :| 0 <= j < |other| && other[j] == y;
    assert Bare(other)[j] == Bare(rows)[i];
  }

  /** Keys, counts, their order and the resolved share do not depend on the order of the commits; only which
      status a key shows may. */
  lemma CommitOrderIrrelevant(a: seq<Commit>, b: seq<Commit>, w: Window, rows: seq<Contributor>, other: seq<Contributor>)
    requires multiset(a) == multiset(b)
    requires IsTable(a, w, rows) && Sorted(rows, Before) && IsTable(b, w, other) && Sorted(other, Before)
    ensures |rows| == |other| && forall i :: 0 <= i < |rows| ==> rows[i].key == other[i].key && rows[i].commits == other[i].commits
    ensures CountIf(a, IsCounted(w)) == CountIf(b, IsCounted(w)) && CountIf(a, IsResolved(w)) == CountIf(b, IsResolved(w))
  {
    hide CountIf, CountOf;
    CountPermutes(a, b, IsCounted(w));
    CountPermutes(a, b, IsResolved(w));
    var bare, bare' := Bare(rows), Bare(other);
    forall x ensures x in bare <==> x in bare' {
      if x in bare {
        var i :| 0 <= i < |bare| && bare[i] == x;
        SameRows(a, b, w, rows, other, i);
      }
      if x in bare' {
        var i :| 0 <= i < |bare'| && bare'[i] == x;
        SameRows(b, a, w, other, rows, i);
      }
    }
    DistinctPermutation(bare, bare');
    BeforeTotal();
    BareSorted(rows);
    BareSorted(other);
    forall x, y | x in bare && y in bare && Before(x, y) && Before(y, x) ensures x == y { CompareOrders(x.key, y.key, ""); }
    SortedUnique(bare, bare', Before);
    forall i | 0 <= i < |rows| ensures rows[i].key == other[i].key && rows[i].commits == other[i].commits { assert bare[i] == bare'[i]; }
  }
}
