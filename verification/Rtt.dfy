/** rtt.c: the retransmission timer of a UDP client, over the reals. */
module Rtt {

  const RXTMIN := 2.0
  const RXTMAX := 60.0
  const MAXNREXMT := 3

  function MinMax(rto: real): (r: real)
    ensures 2.0 <= r <= 60.0 && (2.0 <= rto <= 60.0 ==> r == rto)
  {
    if rto < RXTMIN then RXTMIN else if rto > RXTMAX then RXTMAX else rto
  }

  datatype Estimate = Estimate(rtt: real, srtt: real, rttvar: real, rto: real, nrexmt: int) {
    /** The timeout before it is clamped. */
    function RtoCalc(): real {
      srtt + 4.0 * rttvar
    }
  }

  function Abs(x: real): real {
    if x < 0.0 then -x else x
  }

  /** The structure after rtt_init; the retransmission count is left alone. */
  function Initial(nrexmt: int): Estimate {
    Estimate(0.0, 0.0, 0.75, MinMax(3.0), nrexmt)
  }

  /** The structure after a response measured at `rtt` seconds. */
  function Measured(e: Estimate, rtt: real): Estimate {
    var delta := rtt - e.srtt;
    var srtt := e.srtt + delta / 8.0;
    var rttvar := e.rttvar + (Abs(delta) - e.rttvar) / 4.0;
    Estimate(rtt, srtt, rttvar, MinMax(srtt + 4.0 * rttvar), e.nrexmt)
  }

  class RttInfo {
    var rtt: real
    var srtt: real
    var rttvar: real
    var rto: real
    var nrexmt: int

    constructor ()
    {
    }

    function State(): Estimate
      reads this
    {
      Estimate(rtt, srtt, rttvar, rto, nrexmt)
    }

    method Init()
      modifies this
      ensures State() == Initial(old(nrexmt)) && rto == 3.0
    {
      rtt, srtt, rttvar := 0.0, 0.0, 0.75;
      rto := MinMax(srtt + 4.0 * rttvar);
    }

    method NewPack()
      modifies this
      ensures State() == old(State()).(nrexmt := 0)
    {
      nrexmt := 0;
    }

    /** The timer setting in whole seconds, rounded. */
    method Start() returns (seconds: int)
      ensures seconds as real - 0.5 <= rto < seconds as real + 0.5
    {
      seconds := (rto + 0.5).Floor;
    }

    method Stop(ms: nat)
      modifies this
      ensures State() == Measured(old(State()), ms as real / 1000.0) && rtt * 1000.0 == ms as real
    {
      rtt := ms as real / 1000.0;
      var delta := rtt - srtt;
      srtt := srtt + delta / 8.0;
      if delta < 0.0 {
        delta := -delta;
      }
      rttvar := rttvar + (delta - rttvar) / 4.0;
      rto := MinMax(srtt + 4.0 * rttvar);
    }

    method Timeout() returns (rc: int)
      modifies this
      ensures State() == old(State()).(rto := 2.0 * old(rto), nrexmt := old(nrexmt) + 1)
      ensures rc == if old(nrexmt) < 3 then 0 else -1
    {
      rto := rto * 2.0;
      nrexmt := nrexmt + 1;
      rc := if nrexmt > MAXNREXMT then -1 else 0;
    }
  }

  // ----- a constant round-trip time

  function Pow(x: real, n: nat): real {
    if n == 0 then 1.0 else x * Pow(x, n - 1)
  }

  /** The structure after `n` more responses that all took `c` seconds. */
  function Steady(e: Estimate, c: real, n: nat): Estimate {
    if n == 0 then e else Measured(Steady(e, c, n - 1), c)
  }

  lemma NotNegative(a: real, b: real)
    requires a >= 0.0 && b >= 0.0
    ensures a * b >= 0.0
  {
  }

  lemma Ordered(a: real, b: real, c: real)
    requires a <= b && c >= 0.0
    ensures a * c <= b * c
  {
  }

  lemma Cancelled(a: real, b: real, c: real)
    requires a * c < b * c && c > 0.0
    ensures a < b
  {
    if b <= a {
      Ordered(b, a, c);
    }
  }

  /** The estimators are off by `x`, with the deviation at twice that and `z`. */
  predicate OffBy(e: Estimate, c: real, x: real, z: real) {
    e.srtt == c + x && e.rttvar == 2.0 * Abs(x) + z
  }

  lemma OffByLess(e: Estimate, c: real, x: real, z: real)
    requires OffBy(e, c, x, z)
    ensures OffBy(Measured(e, c), c, 7.0 / 8.0 * x, 3.0 / 4.0 * z)
  {
  }

  function Scaled(c: real, r: real, n: nat): real {
    c * Pow(r, n)
  }

  lemma ScaledStart(c: real, r: real)
    ensures Scaled(c, r, 0) == c
  {
  }

  lemma ScaledStep(c: real, r: real, n: nat)
    requires n > 0
    ensures Scaled(c, r, n) == r * Scaled(c, r, n - 1)
  {
    var p := Pow(r, n - 1);
    assert c * (r * p) == r * (c * p);
  }

  lemma {:induction false} SteadyOffBy(e: Estimate, c: real, n: nat, x: real, z: real)
    requires OffBy(e, c, x, z)
    ensures OffBy(Steady(e, c, n), c, Scaled(x, 7.0 / 8.0, n), Scaled(z, 3.0 / 4.0, n))
  {
    hide Pow, Scaled, OffBy, Measured;
    if n == 0 {
      ScaledStart(x, 7.0 / 8.0);
      ScaledStart(z, 3.0 / 4.0);
    } else {
      SteadyOffBy(e, c, n - 1, x, z);
      ScaledStep(x, 7.0 / 8.0, n);
      ScaledStep(z, 3.0 / 4.0, n);
      OffByLess(Steady(e, c, n - 1), c, Scaled(x, 7.0 / 8.0, n - 1), Scaled(z, 3.0 / 4.0, n - 1));
    }
  }

  /** How far the estimate of the round-trip time is off. */
  function Gap(e: Estimate, c: real): (d: real)
    ensures d >= 0.0 && (d == e.srtt - c || d == c - e.srtt)
  {
    if c < e.srtt then e.srtt - c else c - e.srtt
  }

  /** The estimators in closed form, from any estimate, above the round-trip time
      or below it. */
  lemma SteadyForm(e: Estimate, c: real, n: nat)
    ensures var f, d, p, q := Steady(e, c, n), Gap(e, c), Pow(7.0 / 8.0, n), Pow(3.0 / 4.0, n);
      && f.srtt == c + (e.srtt - c) * p
      && f.rttvar == 2.0 * d * p + (e.rttvar - 2.0 * d) * q
  {
    hide Pow, Steady;
    var x, p := e.srtt - c, Pow(7.0 / 8.0, n);
    SteadyOffBy(e, c, n, x, e.rttvar - 2.0 * Gap(e, c));
    PowPositive(7.0 / 8.0, n);
    AbsScaled(x, p);
    assert 2.0 * (Gap(e, c) * p) == 2.0 * Gap(e, c) * p;
  }

  lemma AbsScaled(x: real, p: real)
    requires p > 0.0
    ensures Abs(x * p) == Abs(x) * p
  {
    if x >= 0.0 {
      NotNegative(x, p);
    } else {
      NotNegative(-x, p);
      assert (-x) * p == -(x * p);
    }
  }

  /** From rtt_init on. */
  lemma ClosedForm(c: real, n: nat, nrexmt: int)
    requires c >= 0.0
    ensures var e, p, q := Steady(Initial(nrexmt), c, n), Pow(7.0 / 8.0, n), Pow(3.0 / 4.0, n);
      && e.srtt == c * (1.0 - p)
      && e.rttvar == 2.0 * c * p + (0.75 - 2.0 * c) * q
      && e.RtoCalc() == c + 7.0 * c * p + (3.0 - 8.0 * c) * q
  {
    hide Pow, Steady;
    var p, q := Pow(7.0 / 8.0, n), Pow(3.0 / 4.0, n);
    SteadyForm(Initial(nrexmt), c, n);
    Distribute(c, p, q);
  }

  lemma Distribute(c: real, p: real, q: real)
    ensures c + (0.0 - c) * p == c * (1.0 - p)
    ensures c * (1.0 - p) + 4.0 * (2.0 * c * p + (0.75 - 2.0 * c) * q) == c + 7.0 * c * p + (3.0 - 8.0 * c) * q
  {
    var x, y := c * p, c * q;
    assert (0.0 - c) * p == -x && c * (1.0 - p) == c - x;
    assert 2.0 * c * p == 2.0 * x && 7.0 * c * p == 7.0 * x;
    assert (0.75 - 2.0 * c) * q == 0.75 * q - 2.0 * y && (3.0 - 8.0 * c) * q == 3.0 * q - 8.0 * y;
  }

  /** A response as much too early as another is too late tells the same about the
      deviation; and the deviation grows, or falls, exactly when the response is
      further off than the deviation, or less far. */
  lemma EitherSide(e: Estimate, d: real, rtt: real)
    ensures Measured(e, e.srtt + d).rttvar == Measured(e, e.srtt - d).rttvar
    ensures Measured(e, rtt).rttvar > e.rttvar <==> rtt > e.srtt + e.rttvar || rtt < e.srtt - e.rttvar
    ensures Measured(e, rtt).rttvar < e.rttvar <==> e.srtt - e.rttvar < rtt < e.srtt + e.rttvar
  {
  }

  lemma {:induction false} PowPositive(x: real, n: nat)
    requires x > 0.0
    ensures Pow(x, n) > 0.0
  {
    if n > 0 {
      PowPositive(x, n - 1);
    }
  }

  lemma {:induction false} PowOrder(n: nat)
    ensures 0.0 < Pow(3.0 / 4.0, n) <= Pow(7.0 / 8.0, n)
  {
    if n > 0 {
      PowOrder(n - 1);
    }
  }

  /** Bernoulli's bound: (7/8)^n falls at least as fast as 7/(7+n). */
  lemma {:induction false} PowFalls(n: nat)
    ensures Pow(7.0 / 8.0, n) * (7.0 + n as real) <= 7.0
  {
    if n > 0 {
      PowFalls(n - 1);
      var p, m := Pow(7.0 / 8.0, n - 1), n as real;
      PowPositive(7.0 / 8.0, n - 1);
      assert Pow(7.0 / 8.0, n) * (7.0 + m) == 7.0 / 8.0 * p * (6.0 + m) + 7.0 / 8.0 * p;
      assert p * m >= p;
    }
  }

  /** The first error, as it counts towards the timeout. */
  function FirstError(e: Estimate, c: real): (k: real)
    ensures k >= 0.0
  {
    (if e.srtt <= c then 15.0 else 17.0) * Gap(e, c) + 4.0 * Abs(e.rttvar)
  }

  /** From which response on the timeout is within `eps` of the round-trip time. */
  function Settled(e: Estimate, c: real, eps: real): nat
    requires eps > 0.0
  {
    var n := (7.0 * FirstError(e, c) / eps).Floor + 1;
    if n < 0 then 0 else n
  }

  lemma PastSettled(e: Estimate, c: real, eps: real, n: nat)
    requires eps > 0.0 && n >= Settled(e, c, eps)
    ensures n as real * eps > 7.0 * FirstError(e, c)
  {
    hide FirstError;
    var k := 7.0 * FirstError(e, c);
    var x := k / eps;
    assert n as real > x;
    assert x * eps == k;
    NoGap(n as real, x, eps);
  }

  lemma NoGap(a: real, b: real, c: real)
    requires a > b && c > 0.0
    ensures a * c > b * c
  {
  }

  /** What is left of the error, with the powers as `p` and `q`. */
  lemma ErrorLeft(e: Estimate, f: Estimate, c: real, p: real, q: real)
    requires 0.0 < q <= p
    requires var d := Gap(e, c);
      f.srtt == c + (e.srtt - c) * p && f.rttvar == 2.0 * d * p + (e.rttvar - 2.0 * d) * q
    ensures Abs(f.RtoCalc() - c) <= FirstError(e, c) * p
  {
    hide Abs;
    var d, v, below := Gap(e, c), Abs(e.rttvar), e.srtt <= c;
    Sizes(d, p, q);
    Products(d, e.rttvar, p, q);
    Spread(if below then 15.0 else 17.0, d, v, p);
    assert (e.srtt - c) * p == if below then -(d * p) else d * p by {
      assert (-d) * p == -(d * p);
    }
    var x, y, u, w := d * p, d * q, v * p, e.rttvar * q;
    assert f.srtt == c + if below then -x else x;
    assert f.rttvar == 2.0 * x + w - 2.0 * y;
    Remainder(e.rttvar, p, q, w, u);
    LinearBound(x, y, u, w, below, f.RtoCalc() - c);
  }

  lemma Sizes(d: real, p: real, q: real)
    requires d >= 0.0 && 0.0 < q <= p
    ensures 0.0 <= d * q <= d * p
  {
    NotNegative(d, q);
    Ordered(q, p, d);
  }

  lemma Remainder(r: real, p: real, q: real, w: real, u: real)
    requires 0.0 < q <= p && w == r * q && u == Abs(r) * p
    ensures Abs(w) <= u
  {
    AbsScaled(r, q);
    hide Abs;
    AbsNotNegative(r);
    Ordered(q, p, Abs(r));
  }

  lemma AbsNotNegative(r: real)
    ensures Abs(r) >= 0.0
  {
  }

  lemma Products(d: real, r: real, p: real, q: real)
    ensures 2.0 * d * p == 2.0 * (d * p) && (r - 2.0 * d) * q == r * q - 2.0 * (d * q)
  {
  }

  lemma Spread(k: real, d: real, v: real, p: real)
    ensures (k * d + 4.0 * v) * p == k * (d * p) + 4.0 * (v * p)
  {
    assert (k * d) * p == k * (d * p);
    assert (4.0 * v) * p == 4.0 * (v * p);
  }

  lemma LinearBound(x: real, y: real, u: real, w: real, below: bool, error: real)
    requires 0.0 <= y <= x && Abs(w) <= u
    requires error == (if below then -x else x) + 4.0 * (2.0 * x + w - 2.0 * y)
    ensures Abs(error) <= (if below then 15.0 else 17.0) * x + 4.0 * u
  {
  }

  lemma ScaledBelow(k: real, p: real, m: real, eps: real)
    requires k >= 0.0 && p > 0.0 && eps > 0.0 && m > 7.0 && p * m <= 7.0 && (m - 7.0) * eps > 7.0 * k
    ensures k * p < eps
  {
    Ordered(p * m, 7.0, k);
    assert (k * p) * m == (p * m) * k;
    assert eps * m > 7.0 * k;
    Cancelled(k * p, eps, m);
  }

  /** Whatever the estimate was, under a steady round-trip time the timeout tends
      to it, clamped or not. */
  lemma TimeoutConverges(e: Estimate, c: real, eps: real, n: nat)
    requires eps > 0.0 && n >= Settled(e, c, eps)
    ensures Abs(Steady(e, c, n).RtoCalc() - c) < eps
    ensures Abs(Steady(e, c, n).rto - MinMax(c)) < eps
  {
    hide *;
    var f, p := Steady(e, c, n), Pow(7.0 / 8.0, n);
    SettledPositive(e, c, eps);
    SteadyForm(e, c, n);
    PowOrder(n);
    PowFalls(n);
    PastSettled(e, c, eps, n);
    ErrorLeft(e, f, c, p, Pow(3.0 / 4.0, n));
    ScaledBelow(FirstError(e, c), p, 7.0 + n as real, eps);
    ClampIsClose(f.RtoCalc(), c);
    SteadyIsClamped(e, c, n);
  }

  lemma SteadyIsClamped(e: Estimate, c: real, n: nat)
    requires n > 0
    ensures Steady(e, c, n).rto == MinMax(Steady(e, c, n).RtoCalc())
  {
  }

  lemma SettledPositive(e: Estimate, c: real, eps: real)
    requires eps > 0.0
    ensures Settled(e, c, eps) > 0
  {
    var x := 7.0 * FirstError(e, c) / eps;
    hide FirstError;
    assert x >= 0.0;
  }

  lemma ClampIsClose(a: real, b: real)
    ensures Abs(MinMax(a) - MinMax(b)) <= Abs(a - b)
  {
  }

  // ----- any run

  datatype Event = NewPack | Stop(ms: nat) | Timeout

  function Step(e: Estimate, ev: Event): Estimate {
    match ev
    case NewPack => e.(nrexmt := 0)
    case Stop(ms) => Measured(e, ms as real / 1000.0)
    case Timeout => e.(rto := 2.0 * e.rto, nrexmt := e.nrexmt + 1)
  }

  function Run(nrexmt: int, evs: seq<Event>): Estimate {
    if evs == [] then Initial(nrexmt) else Step(Run(nrexmt, evs[..|evs| - 1]), evs[|evs| - 1])
  }

  /** Timeouts since the last measurement. */
  function Backoffs(evs: seq<Event>): nat {
    if evs == [] then 0
    else match evs[|evs| - 1]
      case Timeout => Backoffs(evs[..|evs| - 1]) + 1
      case Stop(_) => 0
      case NewPack => Backoffs(evs[..|evs| - 1])
  }

  /** Timeouts since the last new packet, if there has been one. */
  function Retries(evs: seq<Event>): int {
    if evs == [] then -1
    else match evs[|evs| - 1]
      case Timeout => var r := Retries(evs[..|evs| - 1]); if r < 0 then r else r + 1
      case Stop(_) => Retries(evs[..|evs| - 1])
      case NewPack => 0
  }

  function Stops(ms: nat, n: nat): (evs: seq<Event>)
    ensures |evs| == n && forall i :: 0 <= i < n ==> evs[i] == Stop(ms)
  {
    seq(n, _ => Stop(ms))
  }

  lemma {:induction false} StopsAreSteady(nrexmt: int, evs: seq<Event>, ms: nat, n: nat, c: real)
    requires c * 1000.0 == ms as real
    ensures Run(nrexmt, evs + Stops(ms, n)) == Steady(Run(nrexmt, evs), c, n)
  {
    var all := evs + Stops(ms, n);
    if n == 0 {
      assert all == evs;
    } else {
      StopsAreSteady(nrexmt, evs, ms, n - 1, c);
      assert all[..|all| - 1] == evs + Stops(ms, n - 1) && all[|all| - 1] == Stop(ms);
      assert ms as real / 1000.0 == c;
      hide Measured;
    }
  }

  /** So after any run whatever, when the network settles at one round-trip time,
      the timeout settles with it. */
  lemma AnyRunSettles(nrexmt: int, evs: seq<Event>, ms: nat, n: nat, c: real, eps: real)
    requires c * 1000.0 == ms as real && eps > 0.0 && n >= Settled(Run(nrexmt, evs), c, eps)
    ensures Abs(Run(nrexmt, evs + Stops(ms, n)).rto - MinMax(c)) < eps
  {
    hide *;
    StopsAreSteady(nrexmt, evs, ms, n, c);
    TimeoutConverges(Run(nrexmt, evs), c, eps, n);
  }

  predicate Within(evs: seq<Event>, most: nat) {
    forall i :: 0 <= i < |evs| && evs[i].Stop? ==> evs[i].ms <= most
  }

  function Max(a: real, b: real): real {
    if a < b then b else a
  }

  /** With round-trip times of at most `most` milliseconds, the estimators stay in
      range for ever, and the timeout between 2 seconds and 60 doubled once for
      each timeout since the last measurement. */
  lemma {:induction false} RunBounds(nrexmt: int, evs: seq<Event>, most: nat)
    requires Within(evs, most)
    ensures var e, m := Run(nrexmt, evs), most as real / 1000.0;
      && 0.0 <= e.srtt <= m
      && 0.0 <= e.rttvar <= Max(0.75, m)
      && 2.0 <= e.rto <= 60.0 * Pow(2.0, Backoffs(evs))
  {
    if evs != [] {
      var before, ev := evs[..|evs| - 1], evs[|evs| - 1];
      assert forall i :: 0 <= i < |before| ==> before[i] == evs[i];
      RunBounds(nrexmt, before, most);
      if ev.Stop? {
        MeasuredBounds(Run(nrexmt, before), ev.ms, most);
      }
    }
  }

  lemma MeasuredBounds(e: Estimate, ms: nat, most: nat)
    requires ms <= most && 0.0 <= e.srtt <= most as real / 1000.0
    requires 0.0 <= e.rttvar <= Max(0.75, most as real / 1000.0)
    ensures var f, m := Measured(e, ms as real / 1000.0), most as real / 1000.0;
      0.0 <= f.srtt <= m && 0.0 <= f.rttvar <= Max(0.75, m)
  {
    var r, m := ms as real / 1000.0, most as real / 1000.0;
    assert 0.0 <= r <= m;
    assert Abs(r - e.srtt) <= m;
  }

  lemma {:induction false} RetriesAreCounted(nrexmt: int, evs: seq<Event>)
    ensures Retries(evs) >= 0 ==> Run(nrexmt, evs).nrexmt == Retries(evs)
  {
    if evs != [] {
      RetriesAreCounted(nrexmt, evs[..|evs| - 1]);
    }
  }

  /** What rtt_timeout returns when it is called at the end of a run. */
  function TimeoutResult(nrexmt: int, evs: seq<Event>): int {
    if Run(nrexmt, evs).nrexmt < MAXNREXMT then 0 else -1
  }

  /** After a new packet, whatever is measured in between, exactly the first
      three timeouts say to go on and every later one says to give up. */
  lemma GiveUpAfterThree(nrexmt: int, evs: seq<Event>)
    requires Retries(evs) >= 0
    ensures TimeoutResult(nrexmt, evs) == if Retries(evs) < 3 then 0 else -1
  {
    RetriesAreCounted(nrexmt, evs);
  }
}
