/** The bundle's one-shot helper `y(fn, key, n)` over the page-global
    counter map `q`: `fn` runs only while the counter for `key` is below
    `n`, and each run bumps that counter. */
module OneShot {

  /** How many times `key` has fired; an absent key reads as 0. */
  function Count(q: map<string, nat>, key: string): nat {
    if key in q then q[key] else 0
  }

  /** One call of `y`: the new counter map, and whether `fn` ran. */
  function Fire(q: map<string, nat>, key: string, n: int): (r: (map<string, nat>, bool))
    ensures r.1 <==> Count(q, key) < n
    ensures Count(r.0, key) == if r.1 then Count(q, key) + 1 else Count(q, key)
    ensures forall other :: other != key ==> Count(r.0, other) == Count(q, other)
  {
    var c := Count(q, key);
    if c < n then (q[key := c + 1], true) else (q, false)
  }

  /** `k` successive calls of `y` with the same key and bound: the final
      map and how many times `fn` ran. */
  function FireTimes(q: map<string, nat>, key: string, n: int, k: nat): (map<string, nat>, nat)
    decreases k
  {
    if k == 0 then (q, 0)
    else
      var first := Fire(q, key, n);
      var rest := FireTimes(first.0, key, n, k - 1);
      (rest.0, rest.1 + if first.1 then 1 else 0)
  }

  /** The smaller of two naturals. */
  function Min(a: nat, b: nat): nat {
    if a <= b then a else b
  }

  /** The budget left for `key` under bound `n`. */
  function Left(q: map<string, nat>, key: string, n: int): nat {
    if Count(q, key) < n then n - Count(q, key) else 0
  }

  /** `k` calls run `fn` exactly as many times as the budget allows, and
      never more than `n` times over the key's whole life; the counter
      grows by that many and no other key's counter moves. */
  lemma {:induction false} FireTimesCount(q: map<string, nat>, key: string, n: int, k: nat)
    ensures var r := FireTimes(q, key, n, k);
            && r.1 == Min(k, Left(q, key, n))
            && Count(r.0, key) == Count(q, key) + r.1
            && (forall other :: other != key ==> Count(r.0, other) == Count(q, other))
    decreases k
  {
    if k > 0 {
      var first := Fire(q, key, n);
      FireTimesCount(first.0, key, n, k - 1);
      if first.1 {
        assert Left(first.0, key, n) == Left(q, key, n) - 1;
      } else {
        assert Left(q, key, n) == 0;
      }
    }
  }

  /** From a fresh counter, `y(fn, key, 1)` runs `fn` once however often it
      is called. */
  lemma FireOnce(q: map<string, nat>, key: string, k: nat)
    requires key !in q
    requires k >= 1
    ensures FireTimes(q, key, 1, k).1 == 1
  {
    FireTimesCount(q, key, 1, k);
  }

  /** Once `key` has reached its bound, `y` never runs `fn` again. */
  lemma {:induction false} SpentStaysSpent(q: map<string, nat>, key: string, n: int, k: nat)
    requires Count(q, key) >= n
    ensures FireTimes(q, key, n, k) == (q, 0)
    decreases k
  {
    if k > 0 {
      SpentStaysSpent(q, key, n, k - 1);
    }
  }
}
