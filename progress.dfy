/**
 * The count mode of the progress helper: nine percentage stops fixed when the
 * helper is built, and an index that each increment raises, sending the
 * stop's label, or now and then a dot, to the action. The action is modelled
 * as the sequence of messages it has been sent.
 */
module Progress {
  import opened Wrappers
  import opened Sequences
  import Text

  /** The labels of the nine stops, in the order the dictionary initializer adds them. */
  const StopLabels: seq<string> := ["10%", "20%", "30%", "40%", "50%", "60%", "70%", "80%", "90%"]

  /** What the dictionary initializer's `Add` throws when `key` is already there. */
  function DuplicateKey(key: int): Exception
  {
    ArgumentException("An item with the same key has already been added. Key: " + Text.IntToString(key))
  }

  /** The total the constructor works with: below one counts as one. */
  function Clamped(total: int): nat
  {
    if total < 1 then 1 else total
  }

  /** Stop `k` (1 to 9) sits at the floor of `k` tenths of the total. */
  function StopKey(total: nat, k: nat): nat
  {
    (k * total) / 10
  }

  /**
   * The stop dictionary after the initializer's first `n` entries, or the
   * exception of the first entry whose key is already there.
   */
  function StopsUpTo(total: nat, n: nat): Result<map<int, string>, Exception>
    requires n <= 9
  {
    if n == 0 then Success(map[])
    else
      match StopsUpTo(total, n - 1)
      case Failure(e) => Failure(e)
      case Success(m) =>
        if StopKey(total, n) in m then Failure(DuplicateKey(StopKey(total, n)))
        else Success(m[StopKey(total, n) := StopLabels[n - 1]])
  }

  function Stops(total: nat): Result<map<int, string>, Exception>
  {
    StopsUpTo(total, 9)
  }

  /** The first `n` stops fall on pairwise different items. */
  ghost predicate DistinctKeys(total: nat, n: nat)
  {
    forall i, j :: 1 <= i < j <= n ==> StopKey(total, i) != StopKey(total, j)
  }

  /** The initializer succeeds exactly when the keys are distinct. */
  lemma {:induction false} StopsUpToSucceeds(total: nat, n: nat)
    requires n <= 9
    ensures StopsUpTo(total, n).Success? <==> DistinctKeys(total, n)
  {
    if n > 0 {
      StopsUpToSucceeds(total, n - 1);
      if StopsUpTo(total, n - 1).Success? {
        var m := StopsUpTo(total, n - 1).value;
        StopsUpToKeys(total, n - 1);
        if StopKey(total, n) in m {
          var k :| 1 <= k <= n - 1 && StopKey(total, n) == StopKey(total, k);
          assert !DistinctKeys(total, n);
        } else {
          forall i, j | 1 <= i < j <= n
            ensures StopKey(total, i) != StopKey(total, j)
          {
            if j == n {
              assert StopKey(total, i) in m;
            }
          }
        }
      } else {
        assert !DistinctKeys(total, n) by {
          var i, j :| 1 <= i < j <= n - 1 && StopKey(total, i) == StopKey(total, j);
        }
      }
    }
  }

  /** A dictionary the initializer builds has the stops' keys and nothing else. */
  lemma {:induction false} StopsUpToKeys(total: nat, n: nat)
    requires n <= 9 && StopsUpTo(total, n).Success?
    ensures forall key :: key in StopsUpTo(total, n).value <==> exists k :: 1 <= k <= n && key == StopKey(total, k)
  {
    if n > 0 {
      StopsUpToKeys(total, n - 1);
      assert StopsUpTo(total, n).value.Keys == StopsUpTo(total, n - 1).value.Keys + {StopKey(total, n)};
    }
  }

  /** A dictionary the initializer builds maps each stop's key to that stop's label. */
  lemma {:induction false} StopsUpToLabels(total: nat, n: nat)
    requires n <= 9 && StopsUpTo(total, n).Success?
    ensures forall k :: 1 <= k <= n ==>
              StopKey(total, k) in StopsUpTo(total, n).value && StopsUpTo(total, n).value[StopKey(total, k)] == StopLabels[k - 1]
  {
    if n > 0 {
      StopsUpToLabels(total, n - 1);
      StopsUpToKeys(total, n - 1);
      var m := StopsUpTo(total, n - 1).value;
      assert StopsUpTo(total, n).value == m[StopKey(total, n) := StopLabels[n - 1]];
      forall k | 1 <= k < n
        ensures StopKey(total, k) != StopKey(total, n)
      {
        assert StopKey(total, k) in m;
      }
    }
  }

  /** Once an entry fails, the whole initializer fails, with that entry's exception. */
  lemma {:induction false} FailurePersists(total: nat, k: nat, n: nat)
    requires k <= n <= 9 && StopsUpTo(total, k).Failure?
    ensures StopsUpTo(total, n) == StopsUpTo(total, k)
  {
    if n > k {
      FailurePersists(total, k, n - 1);
    }
  }

  /** From nine items on, each stop lies strictly after the one before. */
  lemma StopKeysIncrease(total: nat)
    requires total >= 9
    ensures forall i, j :: 1 <= i < j <= 9 ==> StopKey(total, i) < StopKey(total, j)
  {
    forall i, j | 1 <= i < j <= 9
      ensures StopKey(total, i) < StopKey(total, j)
    {
      if total == 9 {
        assert StopKey(total, i) == i - 1 && StopKey(total, j) == j - 1;
      } else {
        assert j * total >= i * total + total by {
          assert j * total == i * total + (j - i) * total;
          assert (j - i) * total >= total;
        }
      }
    }
  }

  /**
   * Building the helper succeeds exactly when the clamped total is at least
   * nine; below that two stops share an item (for a single item, all nine sit
   * at item zero).
   */
  lemma StopsSucceedIff(total: int)
    ensures Stops(Clamped(total)).Success? <==> Clamped(total) >= 9
    ensures Clamped(total) == 1 ==> forall k :: 1 <= k <= 9 ==> StopKey(Clamped(total), k) == 0
  {
    StopsUpToSucceeds(Clamped(total), 9);
    DistinctKeysFromNine(Clamped(total));
  }

  /** The nine stops fall on distinct items exactly when there are at least nine items. */
  lemma DistinctKeysFromNine(t: nat)
    requires t >= 1
    ensures DistinctKeys(t, 9) <==> t >= 9
  {
    if t >= 9 {
      StopKeysIncrease(t);
    } else if t <= 4 {
      assert StopKey(t, 1) == StopKey(t, 2);
    } else if t <= 6 {
      assert StopKey(t, 2) == StopKey(t, 3);
    } else if t == 7 {
      assert StopKey(t, 3) == StopKey(t, 4);
    } else {
      assert StopKey(t, 5) == StopKey(t, 6);
    }
  }

  /**
   * The exception a total below nine meets: the key of the first stop that
   * repeats an earlier one, zero up to four items, then 1, 1, 2 and 4.
   */
  lemma FirstRepeatedStop(total: int)
    requires 1 <= total <= 8
    ensures Stops(total) == Failure(DuplicateKey(if total <= 4 then 0 else if total <= 6 then 1 else if total == 7 then 2 else 4))
  {
    var k := if total <= 4 then 2 else if total <= 6 then 3 else if total == 7 then 4 else 6;
    RepeatAt(total, k);
    assert StopsUpTo(total, k - 1).Success? by {
      StopsUpToSucceeds(total, k - 1);
    }
    assert StopKey(total, k) in StopsUpTo(total, k - 1).value by {
      StopsUpToKeys(total, k - 1);
    }
    FailurePersists(total, k, 9);
  }

  /** Below nine items, stop `k` is the first to land on the item of the stop before it. */
  lemma RepeatAt(total: nat, k: nat)
    requires 1 <= total <= 8
    requires k == if total <= 4 then 2 else if total <= 6 then 3 else if total == 7 then 4 else 6
    ensures DistinctKeys(total, k - 1)
    ensures StopKey(total, k - 1) == StopKey(total, k) == k - 2
  {
    forall i, j | 1 <= i < j <= k - 1
      ensures StopKey(total, i) != StopKey(total, j)
    {
      assert StopKey(total, i) == i - 1 && StopKey(total, j) == j - 1;
    }
  }

  /**
   * What one increment sends once the index has become `index`: the stop's
   * label at a stop, else a dot every `increment` items when that is more
   * than one, else nothing. Never more than one message.
   */
  function Emission(stops: map<int, string>, increment: int, index: nat): (r: seq<string>)
    ensures |r| <= 1
    ensures r != [] ==> (index in stops && r[0] == stops[index]) || r[0] == "."
  {
    if index in stops then [stops[index]]
    else if increment > 1 && index % increment == 0 then ["."]
    else []
  }

  /** Everything the action is sent over the first `n` increments. */
  function Run(stops: map<int, string>, increment: int, n: nat): seq<string>
  {
    if n == 0 then [] else Run(stops, increment, n - 1) + Emission(stops, increment, n)
  }

  predicate NotDot(message: string)
  {
    message != "."
  }

  /** How many stops lie at or before item `n`, counting among the first `m`. */
  function Reached(total: nat, n: nat, m: nat): (r: nat)
    requires m <= 9
    ensures r <= m
  {
    if m == 0 || StopKey(total, m) <= n then m else Reached(total, n, m - 1)
  }

  /** With increasing keys, the stops reached by item `n` are exactly the first `Reached` ones. */
  lemma {:induction false} ReachedSpec(total: nat, n: nat, m: nat)
    requires total >= 9 && m <= 9
    ensures forall k :: 1 <= k <= m ==> (StopKey(total, k) <= n <==> k <= Reached(total, n, m))
  {
    StopKeysIncrease(total);
    if m > 0 && StopKey(total, m) > n {
      ReachedSpec(total, n, m - 1);
    }
  }

  /** `Reached` is the stop whose key is at or before `n` while the next one's is after it. */
  lemma ReachedIs(total: nat, n: nat, k: nat)
    requires total >= 9 && k <= 9
    requires k == 0 || StopKey(total, k) <= n
    requires k == 9 || StopKey(total, k + 1) > n
    ensures Reached(total, n, 9) == k
  {
    ReachedSpec(total, n, 9);
  }

  /** The labels sent over the first `n` increments: the stops reached so far, in order. */
  lemma {:induction false} RunLabels(total: nat, stops: map<int, string>, n: nat)
    requires total >= 10 && Stops(total) == Success(stops)
    ensures Filter(NotDot, Run(stops, total / 100, n)) == StopLabels[..Reached(total, n, 9)]
  {
    if n == 0 {
      ReachedIs(total, 0, 0);
    } else {
      RunLabels(total, stops, n - 1);
      FilterAppend(NotDot, Run(stops, total / 100, n - 1), Emission(stops, total / 100, n));
      StepLabels(total, stops, n);
    }
  }

  /** One increment adds to the labels sent exactly the stops it reaches. */
  lemma StepLabels(total: nat, stops: map<int, string>, n: nat)
    requires total >= 10 && Stops(total) == Success(stops) && n >= 1
    ensures StopLabels[..Reached(total, n, 9)] ==
            StopLabels[..Reached(total, n - 1, 9)] + Filter(NotDot, Emission(stops, total / 100, n))
  {
    if n in stops {
      assert exists k :: 1 <= k <= 9 && n == StopKey(total, k) by {
        StopsUpToKeys(total, 9);
      }
      var k :| 1 <= k <= 9 && n == StopKey(total, k);
      AtStop(total, stops, k);
    } else {
      BetweenStops(total, stops, n);
    }
  }

  /** No stop's label is a dot. */
  lemma LabelsAreNotDots()
    ensures forall i :: 0 <= i < |StopLabels| ==> NotDot(StopLabels[i])
  {
  }

  /** At stop `k`, the increment sends the next label in order. */
  lemma AtStop(total: nat, stops: map<int, string>, k: nat)
    requires total >= 10 && Stops(total) == Success(stops) && 1 <= k <= 9
    ensures StopKey(total, k) >= 1
    ensures StopLabels[..Reached(total, StopKey(total, k), 9)] ==
            StopLabels[..Reached(total, StopKey(total, k) - 1, 9)] +
            Filter(NotDot, Emission(stops, total / 100, StopKey(total, k)))
  {
    var n := StopKey(total, k);
    assert Emission(stops, total / 100, n) == [StopLabels[k - 1]] by {
      StopsUpToKeys(total, 9);
      StopsUpToLabels(total, 9);
    }
    StopKeysIncrease(total);
    ReachedIs(total, n, k);
    ReachedIs(total, n - 1, k - 1);
    assert Filter(NotDot, [StopLabels[k - 1]]) == [StopLabels[k - 1]] by {
      LabelsAreNotDots();
    }
    assert StopLabels[..k] == StopLabels[..k - 1] + [StopLabels[k - 1]];
  }

  /** Between stops, the increment sends at most a dot, and no stop is passed. */
  lemma BetweenStops(total: nat, stops: map<int, string>, n: nat)
    requires total >= 10 && Stops(total) == Success(stops) && n >= 1 && n !in stops
    ensures StopLabels[..Reached(total, n, 9)] ==
            StopLabels[..Reached(total, n - 1, 9)] + Filter(NotDot, Emission(stops, total / 100, n))
  {
    StopsUpToKeys(total, 9);
    var r := Reached(total, n - 1, 9);
    ReachedSpec(total, n - 1, 9);
    assert r == 0 || StopKey(total, r) <= n - 1;
    assert r == 9 || StopKey(total, r + 1) != n;
    ReachedIs(total, n, r);
    assert Filter(NotDot, Emission(stops, total / 100, n)) == [];
  }

  /** Over a full count of at least ten items every stop is reported once, in order. */
  lemma FullRunReportsEveryStop(total: nat)
    requires total >= 10
    ensures Stops(total).Success?
    ensures Filter(NotDot, Run(Stops(total).value, total / 100, total)) == StopLabels
  {
    StopsSucceedIff(total);
    RunLabels(total, Stops(total).value, total);
    ReachedSpec(total, total, 9);
    assert StopLabels[..9] == StopLabels;
  }

  class ProgressHelper {
    /** A dot every `increment` items, when that is more than one. */
    const increment: int
    /** The item at which each percentage is reported. */
    const stops: map<int, string>
    /** `Index`: the items counted so far. */
    var index: nat
    /** What the action has been sent, in order. */
    var sent: seq<string>

    constructor (increment: int, stops: map<int, string>)
      ensures this.increment == increment && this.stops == stops
      ensures index == 0 && sent == []
    {
      this.increment := increment;
      this.stops := stops;
      index := 0;
      sent := [];
    }

    /**
     * The count-mode constructor: the total clamped to one, a dot every
     * hundredth, the nine stops added one by one, failing on a repeated key.
     */
    static method Create(total: int) returns (r: Result<ProgressHelper, Exception>)
      ensures r.Failure? <==> Stops(Clamped(total)).Failure?
      ensures r.Failure? ==> r.error == Stops(Clamped(total)).error
      ensures r.Success? ==>
                fresh(r.value) && r.value.index == 0 && r.value.sent == [] &&
                r.value.stops == Stops(Clamped(total)).value && r.value.increment == Clamped(total) / 100
    {
      var t := total;
      if t < 1 {
        t := 1;
      }
      var increment := t / 100;
      var stops: map<int, string> := map[];
      for k := 1 to 10
        invariant StopsUpTo(t, k - 1) == Success(stops)
      {
        var key := (k * t) / 10;
        if key in stops {
          FailurePersists(t, k, 9);
          return Failure(DuplicateKey(key));
        }
        stops := stops[key := StopLabels[k - 1]];
      }
      var helper := new ProgressHelper(increment, stops);
      r := Success(helper);
    }

    /** `Increment` in count mode: one more item, and at most one message. */
    method Increment()
      modifies this
      ensures index == old(index) + 1
      ensures sent == old(sent) + Emission(stops, increment, index)
      ensures old(sent) == Run(stops, increment, old(index)) ==> sent == Run(stops, increment, index)
    {
      index := index + 1;
      if index in stops {
        sent := sent + [stops[index]];
      } else if increment > 1 && index % increment == 0 {
        sent := sent + ["."];
      }
    }
  }
}
