/** The join key of the evaluation pipeline, and lists of keys. */
module JoinKeys {
  datatype Key = Key(thread: string, round: int)

  ghost predicate NoRepeats<K>(keys: seq<K>) {
    forall i, j :: 0 <= i < j < |keys| ==> keys[i] != keys[j]
  }

  ghost predicate AtMostOnce<K(!new)>(keys: multiset<K>) {
    forall k :: keys[k] <= 1
  }

  /** The keys not done yet, in order. */
  function Pending<K(==)>(keys: seq<K>, done: set<K>): seq<K> {
    if keys == [] then []
    else
      Pending(keys[..|keys| - 1], done)
      + if keys[|keys| - 1] in done then [] else [keys[|keys| - 1]]
  }

  lemma {:induction false} PendingHolds<K>(keys: seq<K>, done: set<K>, k: K)
    ensures k in Pending(keys, done) <==> k in keys && k !in done
    ensures multiset(Pending(keys, done))[k] == if k in done then 0 else multiset(keys)[k]
  {
    if keys != [] {
      var front, last := keys[..|keys| - 1], keys[|keys| - 1];
      assert keys == front + [last];
      PendingHolds(front, done, k);
    }
  }

  lemma {:induction false} PendingPrefix<K>(keys: seq<K>, done: set<K>, n: nat)
    requires n <= |keys|
    ensures Pending(keys[..n], done) <= Pending(keys, done)
  {
    if n == |keys| {
      assert keys[..n] == keys;
    } else {
      var front := keys[..|keys| - 1];
      assert front[..n] == keys[..n];
      PendingPrefix(front, done, n);
    }
  }

  lemma PendingStep<K>(keys: seq<K>, done: set<K>, i: nat)
    requires i < |keys|
    ensures Pending(keys[..i + 1], done) == Pending(keys[..i], done) + if keys[i] in done then [] else [keys[i]]
  {
    assert keys[..i + 1][..i] == keys[..i];
  }

  lemma {:induction false} NoRepeatsCounts<K(!new)>(keys: seq<K>)
    ensures NoRepeats(keys) <==> AtMostOnce(multiset(keys))
  {
    if keys != [] {
      var front, last := keys[..|keys| - 1], keys[|keys| - 1];
      assert keys == front + [last];
      NoRepeatsCounts(front);
      if NoRepeats(keys) {
        assert NoRepeats(front) by { assert forall i :: 0 <= i < |front| ==> front[i] == keys[i]; }
        assert last !in front by { assert forall i :: 0 <= i < |front| ==> front[i] == keys[i]; }
      }
      if AtMostOnce(multiset(keys)) {
        forall k ensures multiset(front)[k] <= 1 {
          assert multiset(front)[k] <= multiset(keys)[k];
        }
        assert multiset(keys)[last] == multiset(front)[last] + 1;
        assert last !in multiset(front);
      }
    }
  }

  /** A sequence has as many distinct keys as positions exactly when none repeats. */
  lemma {:induction false} CountsOnce<K>(keys: seq<K>)
    ensures |set k | k in keys| <= |keys|
    ensures |set k | k in keys| == |keys| <==> NoRepeats(keys)
  {
    if keys != [] {
      var front, last := keys[..|keys| - 1], keys[|keys| - 1];
      CountsOnce(front);
      var before := set k | k in front;
      assert (set k | k in keys) == before + {last} by { assert keys == front + [last]; }
      if last in front {
        assert before + {last} == before;
        var i :| 0 <= i < |front| && front[i] == last;
        assert keys[i] == keys[|keys| - 1];
      } else {
        assert NoRepeats(front) ==> NoRepeats(keys);
        assert NoRepeats(keys) ==> NoRepeats(front) by {
          assert forall i :: 0 <= i < |front| ==> front[i] == keys[i];
        }
      }
    }
  }

  lemma PrefixCounts<K>(keys: seq<K>, n: nat, k: K)
    requires n <= |keys|
    ensures multiset(keys[..n])[k] <= multiset(keys)[k]
    ensures multiset(keys)[k] == multiset(keys[..n])[k] + multiset(keys[n..])[k]
  {
    assert keys == keys[..n] + keys[n..];
  }
}
