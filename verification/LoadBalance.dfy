/** The gateway's load balancing arithmetic (services/gateway/src/discovery.rs): round robin over a wrapping
    counter, selection of the first minimum, and the response time average.
 */
module LoadBalance {

  // ---------- division by repeated subtraction; QuoRemIs ties it to `/` and `%` ----------

  function Quo(x: nat, n: nat): nat
    requires n > 0
  {
    if x < n then 0 else Quo(x - n, n) + 1
  }

  function Rem(x: nat, n: nat): (r: nat)
    requires n > 0
    ensures r < n && r <= x
  {
    if x < n then x else Rem(x - n, n)
  }

  lemma Unique(n: nat, q: nat, m: nat, q': nat, m': nat)
    requires q * n + m == q' * n + m' && m < n && m' < n
    ensures q == q' && m == m'
  {
    if q < q' {
      Gap(n, q, q');
    } else if q' < q {
      Gap(n, q', q);
    }
  }

  lemma {:induction false} Gap(n: nat, q: nat, q': nat)
    requires q < q'
    ensures q' * n >= q * n + n
  {
    assert q' * n == (q' - 1) * n + n;
    if q < q' - 1 {
      Gap(n, q, q' - 1);
    }
  }

  lemma {:induction false} QuoRemMultiply(x: nat, n: nat)
    requires n > 0
    ensures x == Quo(x, n) * n + Rem(x, n)
  {
    if x >= n {
      QuoRemMultiply(x - n, n);
    }
  }

  lemma QuoRemIs(x: nat, n: nat)
    requires n > 0
    ensures Quo(x, n) == x / n && Rem(x, n) == x % n
  {
    QuoRemMultiply(x, n);
    assert x == (x / n) * n + x % n;
    Unique(n, Quo(x, n), Rem(x, n), x / n, x % n);
  }

  lemma {:induction false} QuoRemStep(x: nat, n: nat)
    requires n > 0 && x > 0
    ensures Rem(x, n) == if Rem(x - 1, n) + 1 == n then 0 else Rem(x - 1, n) + 1
    ensures Quo(x, n) == Quo(x - 1, n) + if Rem(x - 1, n) + 1 == n then 1 else 0
  {
    if x > n {
      QuoRemStep(x - n, n);
    }
  }

  lemma {:induction false} QuoRemSum(x: nat, y: nat, n: nat)
    requires n > 0
    ensures var carry := Rem(x, n) + Rem(y, n) >= n;
            && Rem(x + y, n) == Rem(x, n) + Rem(y, n) - (if carry then n else 0)
            && Quo(x + y, n) == Quo(x, n) + Quo(y, n) + (if carry then 1 else 0)
    decreases x + y
  {
    if y >= n {
      QuoRemSum(x, y - n, n);
    } else if x >= n {
      QuoRemSum(x - n, y, n);
    }
  }

  // ---------- round robin ----------

  /** Values of a 64-bit `usize`. */
  const WORD: nat := 0x1_0000_0000_0000_0000

  /** `counter.wrapping_add(1)`. */
  function NextCounter(word: nat, c: nat): (r: nat)
    requires c < word
    ensures r < word
  {
    if c + 1 == word then 0 else c + 1
  }

  /** The counter after `k` selections. */
  function After(word: nat, c: nat, k: nat): (r: nat)
    requires c < word
    ensures r < word
  {
    if k == 0 then c else NextCounter(word, After(word, c, k - 1))
  }

  /** How many of `k` selections over `n` instances take instance `r`. */
  function Count(word: nat, c: nat, k: nat, n: nat, r: nat): nat
    requires c < word && r < n
  {
    if k == 0 then 0
    else Count(word, c, k - 1, n, r) + if Rem(After(word, c, k - 1), n) == r then 1 else 0
  }

  /** How many numbers below `x` leave remainder `r`. */
  function Below(x: nat, n: nat, r: nat): nat
    requires r < n
  {
    if x == 0 then 0 else Below(x - 1, n, r) + if Rem(x - 1, n) == r then 1 else 0
  }

  lemma {:induction false} BelowIs(x: nat, n: nat, r: nat)
    requires r < n
    ensures Below(x, n, r) == Quo(x, n) + if Rem(x, n) > r then 1 else 0
  {
    if x > 0 {
      BelowIs(x - 1, n, r);
      QuoRemStep(x, n);
    }
  }

  lemma {:induction false} CounterIs(word: nat, c: nat, k: nat)
    requires c < word
    ensures After(word, c, k) == Rem(c + k, word)
  {
    if k > 0 {
      CounterIs(word, c, k - 1);
      QuoRemStep(c + k, word);
    }
  }

  function Repeat(q: nat, b: nat): nat {
    if q == 0 then 0 else Repeat(q - 1, b) + b
  }

  /** What `q` whole passes over the counter's range and `m` more selections give instance `r`. */
  function Chosen(word: nat, q: nat, m: nat, n: nat, r: nat): nat
    requires r < n
  {
    Repeat(q, Below(word, n, r)) + Below(m, n, r)
  }

  lemma ChosenStep(word: nat, q: nat, m: nat, n: nat, r: nat)
    requires m < word && r < n
    ensures (if m + 1 == word then Chosen(word, q + 1, 0, n, r) else Chosen(word, q, m + 1, n, r)) ==
            Chosen(word, q, m, n, r) + if Rem(m, n) == r then 1 else 0
  {}

  /** How often an instance is chosen, for every start, every number of selections and any number of wraps. */
  lemma {:induction false} CountIs(word: nat, c: nat, k: nat, n: nat, r: nat)
    requires c < word && r < n
    ensures Count(word, c, k, n, r) + Below(c, n, r) ==
            Chosen(word, Quo(c + k, word), Rem(c + k, word), n, r)
  {
    if k == 0 {
      assert Repeat(0, Below(word, n, r)) == 0;
    } else {
      var q, m := Quo(c + k - 1, word), Rem(c + k - 1, word);
      var hit := if Rem(m, n) == r then 1 else 0;
      calc {
        Count(word, c, k, n, r) + Below(c, n, r);
        { CounterIs(word, c, k - 1); }
        Count(word, c, k - 1, n, r) + hit + Below(c, n, r);
        { CountIs(word, c, k - 1, n, r); }
        Chosen(word, q, m, n, r) + hit;
        { ChosenStep(word, q, m, n, r); }
        if m + 1 == word then Chosen(word, q + 1, 0, n, r) else Chosen(word, q, m + 1, n, r);
        { QuoRemStep(c + k, word); }
        Chosen(word, Quo(c + k, word), Rem(c + k, word), n, r);
      }
    }
  }

  lemma CountWithoutWrap(word: nat, c: nat, k: nat, n: nat, r: nat)
    requires c < word && c + k <= word && r < n
    ensures Count(word, c, k, n, r) == Below(c + k, n, r) - Below(c, n, r)
  {
    CountIs(word, c, k, n, r);
    if c + k == word {
      assert Quo(word, word) == Quo(0, word) + 1 == 1 && Rem(word, word) == Rem(0, word) == 0;
      assert Repeat(1, Below(word, n, r)) == Repeat(0, Below(word, n, r)) + Below(word, n, r);
    }
  }

  lemma FairSpan(c: nat, k: nat, n: nat, r: nat)
    requires r < n
    ensures Quo(k, n) <= Below(c + k, n, r) - Below(c, n, r) <= Quo(k + n - 1, n)
  {
    BelowIs(c, n, r);
    BelowIs(c + k, n, r);
    QuoRemSum(c, k, n);
    QuoRemSum(k, n - 1, n);
  }

  /** With no wrap, every instance is chosen floor(k/n) or ceil(k/n) times. */
  lemma FairWithoutWrap(word: nat, c: nat, k: nat, n: nat, r: nat)
    requires c < word && c + k <= word && r < n
    ensures k / n <= Count(word, c, k, n, r) <= (k + n - 1) / n
  {
    CountWithoutWrap(word, c, k, n, r);
    FairSpan(c, k, n, r);
    QuoRemIs(k, n);
    QuoRemIs(k + n - 1, n);
  }

  /** How far `r` is ahead of a later `s` among the numbers below `x`: never more than one. */
  function Lead(x: nat, n: nat, r: nat, s: nat): (d: int)
    requires r < s < n
    ensures d == if r < Rem(x, n) <= s then 1 else 0
  {
    BelowIs(x, n, r);
    BelowIs(x, n, s);
    Below(x, n, r) - Below(x, n, s)
  }

  /** The difference of two instances' counts, exactly: each wrap adds the lead of a whole pass. */
  lemma CountsDifferBy(word: nat, c: nat, k: nat, n: nat, r: nat, s: nat)
    requires c < word && r < s < n
    ensures Count(word, c, k, n, r) - Count(word, c, k, n, s) ==
            Quo(c + k, word) * Lead(word, n, r, s) + Lead(Rem(c + k, word), n, r, s) - Lead(c, n, r, s)
    ensures -1 <= Count(word, c, k, n, r) - Count(word, c, k, n, s) <= Quo(c + k, word) + 1
  {
    CountIs(word, c, k, n, r);
    CountIs(word, c, k, n, s);
    RepeatedLead(Quo(c + k, word), Below(word, n, r), Below(word, n, s), Lead(word, n, r, s));
  }

  lemma {:induction false} RepeatedLead(w: nat, x: nat, y: nat, d: int)
    requires d == x - y && 0 <= d <= 1
    ensures Repeat(w, x) - Repeat(w, y) == w * d && 0 <= w * d <= w
  {
    if w > 0 {
      RepeatedLead(w - 1, x, y, d);
      assert d == 0 || d == 1;
    }
  }

  /** Across one wrap, any two counts differ by at most two. */
  lemma FairAcrossOneWrap(word: nat, c: nat, k: nat, n: nat, r: nat, s: nat)
    requires c < word && c + k < 2 * word && r < n && s < n
    ensures -2 <= Count(word, c, k, n, r) - Count(word, c, k, n, s) <= 2
  {
    assert Quo(c + k, word) <= 1;
    if r < s {
      CountsDifferBy(word, c, k, n, r, s);
    } else if s < r {
      CountsDifferBy(word, c, k, n, s, r);
    }
  }

  ghost predicate EvenWindow(word: nat, c: nat, k: nat, n: nat)
    requires c < word
  {
    forall r, s :: 0 <= r < n && 0 <= s < n ==> Count(word, c, k, n, r) - Count(word, c, k, n, s) <= 1
  }

  ghost predicate AlwaysEven(word: nat, n: nat) {
    forall c: nat, k: nat :: c < word ==> EvenWindow(word, c, k, n)
  }

  /** Counts stay within one of each other over every window, wraps included, exactly when the number of
      instances divides the counter's range. */
  lemma EvenIffDivides(word: nat, n: nat)
    requires word > 1 && n > 0
    ensures AlwaysEven(word, n) <==> word % n == 0
  {
    QuoRemIs(word, n);
    if Rem(word, n) == 0 {
      forall c: nat, k: nat | c < word ensures EvenWindow(word, c, k, n) {
        EvenWhenDivides(word, c, k, n);
      }
    } else {
      UnevenWindow(word, n);
    }
  }

  lemma EvenWhenDivides(word: nat, c: nat, k: nat, n: nat)
    requires c < word && n > 0 && Rem(word, n) == 0
    ensures EvenWindow(word, c, k, n)
  {
    forall r, s | 0 <= r < n && 0 <= s < n ensures Count(word, c, k, n, r) - Count(word, c, k, n, s) <= 1 {
      if r < s {
        CountsDifferBy(word, c, k, n, r, s);
      } else if s < r {
        CountsDifferBy(word, c, k, n, s, r);
      }
    }
  }

  /** Starting at zero, the first and the last of `n` instances end up two apart right after the wrap. */
  lemma UnevenWindow(word: nat, n: nat)
    requires word > 1 && n > 0 && Rem(word, n) != 0
    ensures !EvenWindow(word, 0, word + 1, n)
  {
    CountsDifferBy(word, 0, word + 1, n, 0, n - 1);
    assert Quo(word + 1, word) == 1 && Rem(word + 1, word) == 1;
  }

  // ---------- the first minimum ----------

  predicate IsFirstMin(keys: seq<real>, r: nat) {
    && r < |keys|
    && (forall i :: 0 <= i < |keys| ==> keys[r] <= keys[i])
    && forall i :: 0 <= i < r ==> keys[r] < keys[i]
  }

  /** `min_by` keeps the earlier of two equal elements. */
  function FirstMin(keys: seq<real>): (r: nat)
    requires keys != []
    ensures IsFirstMin(keys, r)
  {
    if |keys| == 1 then 0
    else
      var r := FirstMin(keys[..|keys| - 1]);
      if keys[r] > keys[|keys| - 1] then |keys| - 1 else r
  }

  lemma FirstMinIsUnique(keys: seq<real>, r: nat, s: nat)
    requires IsFirstMin(keys, r) && IsFirstMin(keys, s)
    ensures r == s
  {
    assert keys[r] <= keys[s] <= keys[r];
  }

  /** Keys that are ordered alike have the same first minimum. */
  lemma SameOrderSameMin(keys: seq<real>, keys': seq<real>)
    requires |keys| == |keys'| > 0
    requires forall i, j :: 0 <= i < |keys| && 0 <= j < |keys| ==> (keys[i] <= keys[j] <==> keys'[i] <= keys'[j])
    ensures FirstMin(keys) == FirstMin(keys')
  {
    FirstMinIsUnique(keys, FirstMin(keys), FirstMin(keys'));
  }

  // ---------- the response time average ----------

  function Average(avg: real, sample: nat): real {
    avg * 0.9 + sample as real * 0.1
  }

  function AverageRun(avg: real, samples: seq<nat>): real {
    if samples == [] then avg else Average(AverageRun(avg, samples[..|samples| - 1]), samples[|samples| - 1])
  }

  function Shrink(n: nat): (s: real)
    ensures 0.0 < s <= 1.0
  {
    if n == 0 then 1.0 else Shrink(n - 1) * 0.9
  }

  /** Every sample shrinks the difference of two averages to nine tenths. */
  lemma {:induction false} DifferencesShrink(a: real, b: real, samples: seq<nat>)
    ensures AverageRun(a, samples) - AverageRun(b, samples) == (a - b) * Shrink(|samples|)
  {
    if samples != [] {
      DifferencesShrink(a, b, samples[..|samples| - 1]);
    }
  }

  /** So order is kept, ties included, for ever. */
  lemma OrderIsKept(a: real, b: real, samples: seq<nat>)
    ensures a <= b <==> AverageRun(a, samples) <= AverageRun(b, samples)
    ensures a < b <==> AverageRun(a, samples) < AverageRun(b, samples)
  {
    DifferencesShrink(a, b, samples);
    var s := Shrink(|samples|);
    if a < b {
      assert (a - b) * s < 0.0;
    } else if a > b {
      assert (a - b) * s > 0.0;
    }
  }

  /** Averages stay within the bounds of where they started and what was sampled. */
  lemma {:induction false} StaysInHull(avg: real, samples: seq<nat>, lo: real, hi: real)
    requires lo <= avg <= hi && forall i :: 0 <= i < |samples| ==> lo <= samples[i] as real <= hi
    ensures lo <= AverageRun(avg, samples) <= hi
  {
    if samples != [] {
      StaysInHull(avg, samples[..|samples| - 1], lo, hi);
    }
  }

  function AverageAll(avgs: seq<real>, samples: seq<nat>): (r: seq<real>)
    ensures |r| == |avgs| && forall i :: 0 <= i < |r| ==> r[i] == AverageRun(avgs[i], samples)
  {
    seq(|avgs|, i requires 0 <= i < |avgs| => AverageRun(avgs[i], samples))
  }

  /** The selection by response time never moves while the same samples reach every instance. */
  lemma SelectionStaysPut(avgs: seq<real>, samples: seq<nat>)
    requires avgs != []
    ensures FirstMin(AverageAll(avgs, samples)) == FirstMin(avgs)
  {
    forall i, j | 0 <= i < |avgs| && 0 <= j < |avgs|
      ensures avgs[i] <= avgs[j] <==> AverageAll(avgs, samples)[i] <= AverageAll(avgs, samples)[j]
    {
      OrderIsKept(avgs[i], avgs[j], samples);
    }
    SameOrderSameMin(avgs, AverageAll(avgs, samples));
  }
}
