/** Which client snapshot restores the value after a restart (internal/core/logic.go). */
module SnapshotElection {
  import opened Base
  import opened Messages

  datatype Winner = Winner(snapshot: ClipSnapshot, version: uint64, clientId: gostring, clientName: gostring)

  /** The comparator: greater version, then later edit, then greater client id sorts first. */
  predicate Before(a: Winner, b: Winner) {
    if a.version != b.version then a.version > b.version
    else if a.snapshot.localModifiedAtUtc != b.snapshot.localModifiedAtUtc then
      a.snapshot.localModifiedAtUtc > b.snapshot.localModifiedAtUtc
    else StringLess(b.clientId, a.clientId)
  }

  predicate SameKey(a: Winner, b: Winner) {
    a.version == b.version && a.snapshot.localModifiedAtUtc == b.snapshot.localModifiedAtUtc && a.clientId == b.clientId
  }

  /** The comparator is a strict weak order whose ties are exactly the equal keys. */
  lemma BeforeIsStrictWeakOrder(a: Winner, b: Winner, c: Winner)
    ensures !Before(a, a)
    ensures !(Before(a, b) && Before(b, a))
    ensures Before(a, b) && Before(b, c) ==> Before(a, c)
    ensures Before(a, b) ==> Before(a, c) || Before(c, b)
    ensures !Before(a, b) && !Before(b, a) <==> SameKey(a, b)
  {
    StringLessIsTotal(a.clientId, a.clientId);
    StringLessIsTotal(a.clientId, b.clientId);
    StringLessIsTotal(a.clientId, c.clientId);
    StringLessIsTotal(b.clientId, c.clientId);
    if StringLess(b.clientId, a.clientId) && StringLess(c.clientId, b.clientId) {
      StringLessIsTransitive(c.clientId, b.clientId, a.clientId);
    }
    if StringLess(a.clientId, c.clientId) && StringLess(b.clientId, a.clientId) {
      StringLessIsTransitive(b.clientId, a.clientId, c.clientId);
    }
  }

  predicate Eligible(hello: ClientHello) {
    hello.lastServerVersion > 0 && hello.snapshot.Some?
  }

  function Candidate(hello: ClientHello): Winner
    requires Eligible(hello)
  {
    Winner(hello.snapshot.value, hello.lastServerVersion, hello.clientId, hello.clientName)
  }

  /** Hello `i` is elected: nobody beats it, and it beats everyone who arrived earlier. */
  ghost predicate Elected(hellos: seq<ClientHello>, i: int) {
    && 0 <= i < |hellos| && Eligible(hellos[i])
    && (forall j :: 0 <= j < |hellos| && Eligible(hellos[j]) ==> !Before(Candidate(hellos[j]), Candidate(hellos[i])))
    && (forall j :: 0 <= j < i && Eligible(hellos[j]) ==> Before(Candidate(hellos[i]), Candidate(hellos[j])))
  }

  lemma ElectedIsUnique(hellos: seq<ClientHello>, i: int, k: int)
    requires Elected(hellos, i) && Elected(hellos, k)
    ensures i == k
  {
  }

  /** A stable sort, as the library's: an element goes before every later one that does not beat it. */
  function Insert(x: Winner, sorted: seq<Winner>): (r: seq<Winner>)
    ensures multiset(r) == multiset{x} + multiset(sorted)
  {
    if sorted == [] || !Before(sorted[0], x) then [x] + sorted
    else
      assert sorted == [sorted[0]] + sorted[1..];
      [sorted[0]] + Insert(x, sorted[1..])
  }

  function SortStable(s: seq<Winner>): (r: seq<Winner>)
    ensures multiset(r) == multiset(s) && |r| == |s|
  {
    if s == [] then []
    else
      assert s == [s[0]] + s[1..];
      var r := Insert(s[0], SortStable(s[1..]));
      assert |multiset(r)| == |r|;
      r
  }

  ghost predicate IsSorted(s: seq<Winner>) {
    forall i, j :: 0 <= i < j < |s| ==> !Before(s[j], s[i])
  }

  lemma {:induction false} InsertKeepsSorted(x: Winner, sorted: seq<Winner>)
    requires IsSorted(sorted)
    ensures IsSorted(Insert(x, sorted))
  {
    if sorted == [] {
    } else if !Before(sorted[0], x) {
      forall j | 0 <= j < |sorted| ensures !Before(sorted[j], x) {
        BeforeIsStrictWeakOrder(sorted[j], x, sorted[0]);
      }
    } else {
      var rest := Insert(x, sorted[1..]);
      InsertKeepsSorted(x, sorted[1..]);
      forall j | 0 <= j < |rest| ensures !Before(rest[j], sorted[0]) {
        assert rest[j] in multiset(rest);
        BeforeIsStrictWeakOrder(sorted[0], x, x);
      }
    }
  }

  lemma {:induction false} SortStableSorts(s: seq<Winner>)
    ensures IsSorted(SortStable(s))
  {
    if s != [] {
      SortStableSorts(s[1..]);
      InsertKeepsSorted(s[0], SortStable(s[1..]));
    }
  }

  /** The first of a stable sort is the earliest of the best. */
  ghost predicate EarliestBest(s: seq<Winner>, i: int) {
    && 0 <= i < |s|
    && (forall j :: 0 <= j < |s| ==> !Before(s[j], s[i]))
    && (forall j :: 0 <= j < i ==> Before(s[i], s[j]))
  }

  lemma {:induction false} SortedHead(s: seq<Winner>) returns (i: nat)
    requires s != []
    ensures EarliestBest(s, i) && SortStable(s)[0] == s[i]
  {
    SortStableSorts(s);
    if |s| == 1 {
      BeforeIsStrictWeakOrder(s[0], s[0], s[0]);
      return 0;
    }
    var k := SortedHead(s[1..]);
    var best := s[1..][k];
    i := if Before(best, s[0]) then k + 1 else 0;
    forall j | 0 <= j < |s| ensures !Before(s[j], s[i]) {
      BeforeIsStrictWeakOrder(s[0], s[0], s[0]);
      if j > 0 {
        assert !Before(s[1..][j - 1], best);
        BeforeIsStrictWeakOrder(s[j], s[0], best);
      } else {
        BeforeIsStrictWeakOrder(best, s[0], s[0]);
      }
    }
    forall j | 0 <= j < i ensures Before(s[i], s[j]) {
      if j > 0 { assert Before(best, s[1..][j - 1]); }
    }
  }

  /** The elected winner as a function, for use in specifications. */
  ghost function Elect(hellos: seq<ClientHello>): Option<Winner> {
    if i: int :| Elected(hellos, i) then Some(Candidate(hellos[i])) else None
  }

  lemma ElectIs(hellos: seq<ClientHello>, i: int)
    requires Elected(hellos, i)
    ensures Elect(hellos) == Some(Candidate(hellos[i]))
  {
    forall k: int | Elected(hellos, k) ensures k == i {
      ElectedIsUnique(hellos, i, k);
    }
  }

  method SelectSnapshotWinner(hellos: seq<ClientHello>) returns (winner: Option<Winner>)
    ensures winner == Elect(hellos)
    ensures winner.None? <==> forall i :: 0 <= i < |hellos| ==> !Eligible(hellos[i])
    ensures winner.Some? ==> exists i :: Elected(hellos, i) && winner.value == Candidate(hellos[i])
  {
    var candidates: seq<Winner> := [];
    ghost var origin: seq<int> := [];
    for k := 0 to |hellos|
      invariant |origin| == |candidates|
      invariant forall c :: 0 <= c < |origin| ==>
        0 <= origin[c] < k && Eligible(hellos[origin[c]]) && candidates[c] == Candidate(hellos[origin[c]])
      invariant forall c, d :: 0 <= c < d < |origin| ==> origin[c] < origin[d]
      invariant forall j :: 0 <= j < k && Eligible(hellos[j]) ==> j in origin
    {
      if hellos[k].lastServerVersion > 0 && hellos[k].snapshot.Some? {
        candidates := candidates + [Candidate(hellos[k])];
        origin := origin + [k];
      }
    }
    if |candidates| == 0 {
      return None;
    }
    ghost var best := SortedHead(candidates);
    candidates := SortStable(candidates);
    winner := Some(candidates[0]);
    ElectIs(hellos, origin[best]);
  }

  /** Reordering the arrivals can only change the winner among candidates with equal keys. */
  lemma ReorderingKeepsKey(hellos: seq<ClientHello>, other: seq<ClientHello>, i: int, k: int)
    requires multiset(hellos) == multiset(other)
    requires Elected(hellos, i) && Elected(other, k)
    ensures SameKey(Candidate(hellos[i]), Candidate(other[k]))
  {
    assert hellos[i] in multiset(other) && other[k] in multiset(hellos);
    BeforeIsStrictWeakOrder(Candidate(hellos[i]), Candidate(other[k]), Candidate(hellos[i]));
  }

  /** NextVersion: the source panics on the last version. */
  function NextVersion(cur: uint64): (next: Option<uint64>)
    ensures next.None? <==> cur == MAX_UINT64
    ensures next.Some? ==> next.value == cur + 1
  {
    if cur == MAX_UINT64 then None else Some(cur + 1)
  }
}
