/** The client side as code: the shared dictionaries of locks and counters, the nonce draw,
    the rate-limit retry loop, and the checks before an order is placed. */
module KrakenClient {
  import opened Numbers
  import opened NonceProtocol

  class Lock {
    constructor () {}
  }

  /** The module-level dictionaries, shared by every adapter of the process. */
  class Registry {
    var locks: map<Key, Lock>
    var lastNonce: map<Key, int>

    constructor ()
      ensures locks == map[] && lastNonce == map[]
    {
      locks, lastNonce := map[], map[];
    }

    /** Get-or-create: one lock per key for the life of the process, and no other key's lock
        is touched. */
    method LockFor(key: Key) returns (lock: Lock)
      modifies this`locks
      ensures key in locks && locks[key] == lock
      ensures locks.Keys == old(locks).Keys + {key}
      ensures forall k :: k in old(locks) ==> locks[k] == old(locks)[k]
      ensures key !in old(locks) ==> fresh(lock)
    {
      if key !in locks {
        lock := new Lock();
        locks := locks[key := lock];
      } else {
        lock := locks[key];
      }
    }
  }

  class Adapter {
    const key: Key
    const registry: Registry
    var ownLast: int

    constructor (key: Key, registry: Registry)
      ensures this.key == key && this.registry == registry && ownLast == 0
    {
      this.key, this.registry, ownLast := key, registry, 0;
    }

    /** Draws the next nonce: above everything any adapter drew for the key, never behind the
        clock; only this key's counter and this adapter's own copy move. */
    method MakeNonce(now: int) returns (nonce: int)
      modifies registry`lastNonce, this`ownLast
      ensures nonce ==
              NextNonce(now, if key in old(registry.lastNonce) then old(registry.lastNonce)[key] else old(ownLast))
      ensures registry.lastNonce == old(registry.lastNonce)[key := nonce]
      ensures ownLast == nonce
      ensures key in old(registry.lastNonce) ==> nonce > old(registry.lastNonce)[key]
      ensures nonce >= now
    {
      var last := if key in registry.lastNonce then registry.lastNonce[key] else ownLast;
      nonce := if now >= last + 1 then now else last + 1;
      registry.lastNonce := registry.lastNonce[key := nonce];
      ownLast := nonce;
    }
  }

  // --- bounded retry ---

  datatype Attempt = Answered | RateLimited | Failed

  /** Tries until something other than a rate-limit rejection comes back, four times at most;
      `attempts[i]` is what attempt `i` meets. The result is that of the first settled attempt,
      and the sleeps 1, 2, 4 add up to one less than a power of two. */
  method CallWithRateLimitRetry(attempts: seq<Attempt>) returns (result: Attempt, tried: nat, slept: nat)
    requires |attempts| >= 4
    ensures 1 <= tried <= 4 && result == attempts[tried - 1]
    ensures forall i :: 0 <= i < tried - 1 ==> attempts[i] == RateLimited
    ensures tried <= 3 ==> result != RateLimited
    ensures slept == Pow2(tried - 1) - 1 <= 7
    ensures slept == 7 <==> tried == 4
  {
    var attempt := 0;
    slept := 0;
    result := attempts[0];
    while attempts[attempt] == RateLimited && attempt < MAX_RETRIES
      invariant 0 <= attempt <= MAX_RETRIES
      invariant forall i :: 0 <= i < attempt ==> attempts[i] == RateLimited
      invariant slept == Pow2(attempt) - 1
      decreases MAX_RETRIES - attempt
    {
      slept := slept + Pow2(attempt);
      attempt := attempt + 1;
    }
    result, tried := attempts[attempt], attempt + 1;
    assert Pow2(3) == 8 && Pow2(2) == 4 && Pow2(1) == 2;
  }

  // --- quantization ---

  function Cut(v: real, scale: real): real requires scale > 0.0 { (v * scale).Floor as real / scale }

  function Scale(decimals: nat): (r: real) ensures r > 0.0 { Pow10(decimals) as real }

  /** Decimal places cut off toward zero. */
  function Quantize(v: real, decimals: nat): real {
    if v >= 0.0 then Cut(v, Scale(decimals)) else -Cut(-v, Scale(decimals))
  }

  function Quantum(decimals: nat): real { 1.0 / Scale(decimals) }

  predicate IsMultiple(v: real, n: int, scale: real) { v * scale == n as real }

  ghost predicate OnGrid(v: real, decimals: nat) { exists n: int :: IsMultiple(v, n, Scale(decimals)) }

  lemma {:induction false} CutBounds(v: real, scale: real)
    requires v >= 0.0 && scale > 0.0
    ensures 0.0 <= Cut(v, scale) <= v < Cut(v, scale) + 1.0 / scale
    ensures IsMultiple(Cut(v, scale), (v * scale).Floor, scale)
  {
    var n := (v * scale).Floor;
    ScaleDown(0.0, v, scale);
    Unscale(n as real, scale);
    Unscale(1.0, scale);
    Bracket(v, n as real, n as real / scale, 1.0 / scale, scale);
  }

  lemma {:induction false} Unscale(x: real, scale: real)
    requires scale > 0.0
    ensures x / scale * scale == x
  {
  }

  lemma {:induction false} Bracket(v: real, n: real, q: real, u: real, scale: real)
    requires scale > 0.0 && q * scale == n && u * scale == 1.0 && 0.0 <= n <= v * scale < n + 1.0
    ensures 0.0 <= q <= v < q + u
  {
    CancelScale(0.0, q, scale);
    CancelScale(q, v, scale);
    assert (q + u) * scale == n + 1.0;
    CancelScale(q + u, v, scale);
  }

  lemma {:induction false} CancelScale(x: real, y: real, scale: real)
    requires scale > 0.0
    ensures x * scale <= y * scale <==> x <= y
  {
    if x <= y { ScaleDown(x, y, scale); } else { ScaleUp(y, x, scale); }
  }

  lemma {:induction false} CutLargest(v: real, w: real, n: int, scale: real)
    requires v >= 0.0 && scale > 0.0 && w <= v && IsMultiple(w, n, scale)
    ensures w <= Cut(v, scale)
  {
    CutBounds(v, scale);
    ScaleDown(w, v, scale);
    assert n <= (v * scale).Floor;
    CancelScale(w, Cut(v, scale), scale);
  }

  lemma {:induction false} ScaleUp(x: real, y: real, scale: real)
    requires x < y && scale > 0.0
    ensures x * scale < y * scale
  {
    assert (y - x) * scale > 0.0;
  }

  lemma {:induction false} ScaleDown(x: real, y: real, scale: real)
    requires x <= y && scale >= 0.0
    ensures x * scale <= y * scale
  {
    assert (y - x) * scale >= 0.0;
  }

  /** For amounts, which are never negative: rounded down, by less than one quantum. */
  lemma {:induction false} QuantizeBounds(v: real, decimals: nat)
    requires v >= 0.0
    ensures 0.0 <= Quantize(v, decimals) <= v < Quantize(v, decimals) + Quantum(decimals)
    ensures OnGrid(Quantize(v, decimals), decimals)
  {
    hide Cut, Scale, IsMultiple;
    CutBounds(v, Scale(decimals));
  }

  /** It is the largest value with that many decimals that is not above the argument. */
  lemma {:induction false} QuantizeLargest(v: real, w: real, decimals: nat)
    requires v >= 0.0 && w <= v && OnGrid(w, decimals)
    ensures w <= Quantize(v, decimals)
  {
    hide Cut, Scale, IsMultiple;
    var n: int :| IsMultiple(w, n, Scale(decimals));
    CutLargest(v, w, n, Scale(decimals));
  }

  /** Quantizing twice changes nothing more, and order is preserved. */
  lemma {:induction false} QuantizeIdempotent(v: real, decimals: nat)
    requires v >= 0.0
    ensures Quantize(Quantize(v, decimals), decimals) == Quantize(v, decimals)
  {
    hide Quantize, Quantum, OnGrid;
    QuantizeBounds(v, decimals);
    var q := Quantize(v, decimals);
    QuantizeBounds(q, decimals);
    QuantizeLargest(q, q, decimals);
  }

  lemma {:induction false} QuantizeMonotone(v: real, w: real, decimals: nat)
    requires 0.0 <= v <= w
    ensures Quantize(v, decimals) <= Quantize(w, decimals)
  {
    hide Quantize, Quantum, OnGrid;
    QuantizeBounds(v, decimals);
    QuantizeLargest(w, Quantize(v, decimals), decimals);
  }

  // --- the checks of place_order ---

  datatype PairMetadata = PairMetadata(pairDecimals: nat, lotDecimals: nat, ordermin: real, costmin: real)

  datatype Placement = Submitted(price: real, volume: real) | BelowOrdermin | BelowCostmin(cost: real)

  function Cost(price: real, volume: real): real { price * volume }

  function PlaceOrder(price: real, volume: real, meta: PairMetadata): Placement {
    var priceQ, volumeQ := Quantize(price, meta.pairDecimals), Quantize(volume, meta.lotDecimals);
    if volumeQ < meta.ordermin then BelowOrdermin
    else if Cost(priceQ, volumeQ) < meta.costmin then BelowCostmin(Cost(priceQ, volumeQ))
    else Submitted(priceQ, volumeQ)
  }

  /** A submitted order never costs more than intended, falls short by less than one quantum of
      each factor, meets both exchange minimums, and has the exchange's precision. */
  lemma {:induction false} SubmittedOrder(price: real, volume: real, meta: PairMetadata)
    requires price > 0.0 && volume > 0.0
    requires PlaceOrder(price, volume, meta).Submitted?
    ensures var o := PlaceOrder(price, volume, meta);
            && Cost(o.price, o.volume) <= Cost(price, volume)
            && Cost(price, volume) - Cost(o.price, o.volume) <
               Cost(price, Quantum(meta.lotDecimals)) + Cost(volume, Quantum(meta.pairDecimals))
            && o.volume >= meta.ordermin && Cost(o.price, o.volume) >= meta.costmin
            && OnGrid(o.price, meta.pairDecimals) && OnGrid(o.volume, meta.lotDecimals)
  {
    hide Quantize, Quantum, OnGrid, Cost;
    QuantizeBounds(price, meta.pairDecimals);
    QuantizeBounds(volume, meta.lotDecimals);
    var o := PlaceOrder(price, volume, meta);
    Shortfall(price, volume, o.price, o.volume, Quantum(meta.pairDecimals), Quantum(meta.lotDecimals));
  }

  lemma {:induction false} Shortfall(p: real, v: real, pq: real, vq: real, dp: real, dv: real)
    requires p > 0.0 && v > 0.0 && 0.0 <= pq <= p < pq + dp && 0.0 <= vq <= v < vq + dv
    ensures Cost(pq, vq) <= Cost(p, v)
    ensures Cost(p, v) - Cost(pq, vq) < Cost(p, dv) + Cost(v, dp)
  {
    var x, y := v - vq, p - pq;
    assert p * v - pq * vq == p * x + vq * y;
    assert p * x >= 0.0 && vq * y >= 0.0;
    ScaleUp(x, dv, p);
    ScaleDown(vq, v, dp);
    if vq > 0.0 { ScaleUp(y, dp, vq); }
  }

  /** Negative values are cut toward zero too. */
  lemma {:induction false} QuantizeOdd(v: real, decimals: nat)
    ensures Quantize(-v, decimals) == -Quantize(v, decimals)
  {
    if v == 0.0 { QuantizeZero(decimals); }
  }

  lemma {:induction false} QuantizeZero(decimals: nat)
    ensures Quantize(0.0, decimals) == 0.0
  {
    hide Cut, Scale, IsMultiple;
    CutBounds(0.0, Scale(decimals));
  }

  /** A price and a volume that the exchange can express and that stay within the intended ones. */
  ghost predicate Expressible(p: real, v: real, price: real, volume: real, meta: PairMetadata) {
    && 0.0 <= p <= price && OnGrid(p, meta.pairDecimals)
    && 0.0 <= v <= volume && OnGrid(v, meta.lotDecimals)
  }

  /** When an order goes through: the cut price and volume meet both minimums, equality included.
      Said without the cut: exactly when some order the exchange can express, within the intended
      price and volume, meets both minimums. It fails on the volume exactly when no expressible
      volume reaches `ordermin`, and on the cost, which is reported, in the remaining cases. */
  lemma {:induction false} PlacedExactly(price: real, volume: real, meta: PairMetadata)
    requires price >= 0.0 && volume >= 0.0
    ensures var p, v := Quantize(price, meta.pairDecimals), Quantize(volume, meta.lotDecimals);
            && (PlaceOrder(price, volume, meta).Submitted? <==> v >= meta.ordermin && p * v >= meta.costmin)
            && (PlaceOrder(price, volume, meta).Submitted? ==> PlaceOrder(price, volume, meta) == Submitted(p, v))
            && (PlaceOrder(price, volume, meta).BelowCostmin? ==> PlaceOrder(price, volume, meta).cost == p * v)
    ensures PlaceOrder(price, volume, meta).Submitted? <==>
            exists p, v :: Expressible(p, v, price, volume, meta) && v >= meta.ordermin && p * v >= meta.costmin
    ensures PlaceOrder(price, volume, meta).BelowOrdermin? <==>
            forall p, v :: Expressible(p, v, price, volume, meta) ==> v < meta.ordermin
  {
    hide Quantize, Quantum, OnGrid, Cost, Expressible;
    var p, v := Quantize(price, meta.pairDecimals), Quantize(volume, meta.lotDecimals);
    CostIs(p, v);
    CutExpressible(price, volume, meta);
    forall p', v' | Expressible(p', v', price, volume, meta) ensures v' <= v && Cost(p', v') <= Cost(p, v) {
      CutLargestExpressible(price, volume, p', v', meta);
    }
    forall p', v' ensures Cost(p', v') == p' * v' { CostIs(p', v'); }
  }

  lemma {:induction false} CutExpressible(price: real, volume: real, meta: PairMetadata)
    requires price >= 0.0 && volume >= 0.0
    ensures Expressible(Quantize(price, meta.pairDecimals), Quantize(volume, meta.lotDecimals), price, volume, meta)
  {
    hide Quantize, Quantum, OnGrid;
    QuantizeBounds(price, meta.pairDecimals);
    QuantizeBounds(volume, meta.lotDecimals);
  }

  lemma {:induction false} CutLargestExpressible(price: real, volume: real, p: real, v: real, meta: PairMetadata)
    requires price >= 0.0 && volume >= 0.0 && Expressible(p, v, price, volume, meta)
    ensures v <= Quantize(volume, meta.lotDecimals)
    ensures Cost(p, v) <= Cost(Quantize(price, meta.pairDecimals), Quantize(volume, meta.lotDecimals))
  {
    hide Quantize, Quantum, OnGrid, Cost;
    QuantizeLargest(price, p, meta.pairDecimals);
    QuantizeLargest(volume, v, meta.lotDecimals);
    CostMonotone(p, Quantize(price, meta.pairDecimals), v, Quantize(volume, meta.lotDecimals));
  }

  lemma {:induction false} CostIs(price: real, volume: real)
    ensures Cost(price, volume) == price * volume
  {
  }

  /** Raising the price or the volume never turns an accepted order into a refused one, and a
      submitted order passes the checks again unchanged. */
  lemma {:induction false} PlacementStable(price: real, volume: real, price': real, volume': real, meta: PairMetadata)
    requires 0.0 < price <= price' && 0.0 < volume <= volume'
    requires PlaceOrder(price, volume, meta).Submitted?
    ensures PlaceOrder(price', volume', meta).Submitted?
    ensures var o := PlaceOrder(price, volume, meta); PlaceOrder(o.price, o.volume, meta) == o
  {
    hide Quantize, Quantum, OnGrid, Cost;
    QuantizeBounds(price, meta.pairDecimals);
    QuantizeBounds(volume, meta.lotDecimals);
    QuantizeMonotone(price, price', meta.pairDecimals);
    QuantizeMonotone(volume, volume', meta.lotDecimals);
    QuantizeIdempotent(price, meta.pairDecimals);
    QuantizeIdempotent(volume, meta.lotDecimals);
    CostMonotone(Quantize(price, meta.pairDecimals), Quantize(price', meta.pairDecimals),
                 Quantize(volume, meta.lotDecimals), Quantize(volume', meta.lotDecimals));
  }

  lemma {:induction false} CostMonotone(p: real, p': real, v: real, v': real)
    requires 0.0 <= p <= p' && 0.0 <= v <= v'
    ensures Cost(p, v) <= Cost(p', v')
  {
    ScaleDown(p, p', v);
    ScaleDown(v, v', p');
  }
}
