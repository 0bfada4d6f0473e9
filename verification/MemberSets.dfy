/** Members of an object as a set: with unrepeated names their order does not matter. */
module MemberSets {
  import opened Base
  import opened JsonScanner

  ghost predicate DistinctKeys(ms: seq<Member>) {
    forall i, j :: 0 <= i < j < |ms| ==> ms[i].key != ms[j].key
  }

  lemma CountTwice(ms: seq<Member>, i: int, j: int)
    requires 0 <= i < j < |ms| && ms[i] == ms[j]
    ensures multiset(ms)[ms[i]] >= 2
  {
    assert ms == ms[..j] + ms[j..];
    assert multiset(ms) == multiset(ms[..j]) + multiset(ms[j..]);
    assert ms[..j][i] in ms[..j] && ms[j..][0] in ms[j..];
  }

  lemma {:induction false} CountOnce(ms: seq<Member>, m: Member)
    requires DistinctKeys(ms)
    ensures multiset(ms)[m] <= 1
    decreases |ms|
  {
    if ms != [] {
      var n := |ms| - 1;
      assert ms == ms[..n] + [ms[n]];
      CountOnce(ms[..n], m);
      if ms[n] == m { assert m !in ms[..n]; }
    }
  }

  lemma PermutedInclusion(ms: seq<Member>, ms': seq<Member>)
    requires multiset(ms) == multiset(ms')
    ensures forall m :: m in ms <==> m in ms'
  {
    assert forall m :: m in ms <==> m in multiset(ms);
    assert forall m :: m in ms' <==> m in multiset(ms');
  }

  lemma PermutedKeys(ms: seq<Member>, ms': seq<Member>)
    requires multiset(ms) == multiset(ms') && DistinctKeys(ms)
    ensures DistinctKeys(ms')
  {
    PermutedInclusion(ms, ms');
    forall i, j | 0 <= i < j < |ms'| ensures ms'[i].key != ms'[j].key {
      assert ms'[i] in ms && ms'[j] in ms;
      if ms'[i] == ms'[j] {
        CountTwice(ms', i, j);
        CountOnce(ms, ms'[i]);
        assert false;
      } else {
        var a :| 0 <= a < |ms| && ms[a] == ms'[i];
        var b :| 0 <= b < |ms| && ms[b] == ms'[j];
        assert a != b;
      }
    }
  }

  lemma {:induction false} FindIs(ms: seq<Member>, key: gostring, v: Node)
    requires DistinctKeys(ms)
    ensures Find(ms, key) == Some(v) <==> Member(key, v) in ms
    decreases |ms|
  {
    if ms != [] {
      assert ms == [ms[0]] + ms[1..];
      FindIs(ms[1..], key, v);
      assert forall i :: 1 <= i < |ms| ==> ms[i] in ms[1..];
      if ms[0].key == key { assert forall m :: m in ms[1..] ==> m.key != key; }
    }
  }

  lemma PermutedFind(ms: seq<Member>, ms': seq<Member>, key: gostring)
    requires multiset(ms) == multiset(ms') && DistinctKeys(ms)
    ensures Find(ms, key) == Find(ms', key)
  {
    PermutedKeys(ms, ms');
    PermutedInclusion(ms, ms');
    if Find(ms, key).Some? {
      FindIs(ms, key, Find(ms, key).value);
      FindIs(ms', key, Find(ms, key).value);
    } else if Find(ms', key).Some? {
      FindIs(ms, key, Find(ms', key).value);
      FindIs(ms', key, Find(ms', key).value);
    }
  }

  lemma PermutedUniqueKnown(ms: seq<Member>, ms': seq<Member>, known: seq<gostring>)
    requires multiset(ms) == multiset(ms')
    ensures UniqueKnown(ms, known) <==> UniqueKnown(ms', known)
  {
    PermutedInclusion(ms, ms');
    if DistinctKeys(ms) { PermutedKeys(ms, ms'); }
    if DistinctKeys(ms') { PermutedKeys(ms', ms); }
    assert forall i :: 0 <= i < |ms| ==> ms[i] in ms';
    assert forall i :: 0 <= i < |ms'| ==> ms'[i] in ms;
  }

  lemma KnownIsDistinct(ms: seq<Member>, known: seq<gostring>)
    ensures UniqueKnown(ms, known) ==> DistinctKeys(ms)
  {
  }

  /** Members with unrepeated known keys that hold one given member for every key are those members in some order. */
  lemma ExactlyThese(ms: seq<Member>, these: seq<Member>, known: seq<gostring>)
    requires UniqueKnown(ms, known) && UniqueKnown(these, known)
    requires forall k :: k in known ==> exists m :: m in these && m.key == k
    requires forall m :: m in these ==> m in ms
    ensures multiset(ms) == multiset(these)
  {
    forall m ensures multiset(ms)[m] == multiset(these)[m] {
      CountOnce(ms, m);
      CountOnce(these, m);
      if m in ms {
        var t :| t in these && t.key == m.key;
        assert t in ms && t == m;
        assert m in multiset(ms) && m in multiset(these);
      } else {
        assert m !in these && m !in multiset(ms) && m !in multiset(these);
      }
    }
  }

  /** Looking up a name finds exactly the member of that name. */
  lemma GetIsMembership(root: Node, key: gostring, v: Node)
    requires root.Object? && DistinctKeys(root.members)
    ensures Get(root, key) == Some(v) <==> Member(key, v) in root.members
  {
    FindIs(root.members, key, v);
  }

  /** What lookups find in these members in any order. */
  lemma GetsOf(root: Node, these: seq<Member>, known: seq<gostring>)
    requires root.Object? && multiset(root.members) == multiset(these) && UniqueKnown(these, known)
    ensures UniqueKnown(root.members, known)
    ensures forall m :: m in these ==> Get(root, m.key) == Some(m.val)
  {
    PermutedUniqueKnown(these, root.members, known);
    KnownIsDistinct(these, known);
    hide UniqueKnown, DistinctKeys;
    forall m | m in these ensures Get(root, m.key) == Some(m.val) {
      PermutedFind(these, root.members, m.key);
      FindIs(these, m.key, m.val);
    }
  }

  /** And the other way around: members whose lookups find all of these are these in some order. */
  lemma FromGets(root: Node, these: seq<Member>, known: seq<gostring>)
    requires root.Object? && UniqueKnown(root.members, known) && UniqueKnown(these, known)
    requires forall k :: k in known ==> exists m :: m in these && m.key == k
    requires forall m :: m in these ==> Get(root, m.key) == Some(m.val)
    ensures multiset(root.members) == multiset(these)
  {
    hide UniqueKnown, Find;
    forall m | m in these ensures m in root.members {
      assert Get(root, m.key) == Some(m.val);
    }
    ExactlyThese(root.members, these, known);
  }
}
