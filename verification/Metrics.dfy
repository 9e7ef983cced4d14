/** The process-wide counters (src/metrics.cpp): 64-bit, wrapping, one atomic increment at
    a time.
 */
module Metrics {

  const WRAP: nat := 0x1_0000_0000_0000_0000

  datatype Bucket = LookupPath | HealthPath | MetricsPath | OtherPath

  function BucketOf(path: string): Bucket {
    if path == "/lookup" then LookupPath
    else if path == "/health" then HealthPath
    else if path == "/metrics" then MetricsPath
    else OtherPath
  }

  /** Values of all counters, or how often each has been incremented. */
  datatype Counts = Counts(
    lookup: nat, health: nat, metrics: nat, other: nat,
    r200: nat, r400: nat, r404: nat, r405: nat, r500: nat,
    found: nat, notFound: nat)

  const ZERO := Counts(0, 0, 0, 0, 0, 0, 0, 0, 0, 0, 0)

  predicate IsCounted(status: nat) {
    status == 200 || status == 400 || status == 404 || status == 405 || status == 500
  }

  /** What a 64-bit counter shows after n increments. */
  function Wrap(n: nat): nat {
    if n < WRAP then n else Wrap(n - WRAP)
  }

  /** Counting with 64 bits, or without end. */
  datatype Width = U64 | Unbounded

  /** One increment. */
  function Bump(n: nat, width: Width): nat {
    if width == U64 then Wrap(n + 1) else n + 1
  }

  function CountRequest(c: Counts, b: Bucket, width: Width): Counts {
    match b
    case LookupPath => c.(lookup := Bump(c.lookup, width))
    case HealthPath => c.(health := Bump(c.health, width))
    case MetricsPath => c.(metrics := Bump(c.metrics, width))
    case OtherPath => c.(other := Bump(c.other, width))
  }

  /** A status outside the five is dropped. */
  function CountResponse(c: Counts, status: nat, width: Width): Counts {
    if status == 200 then c.(r200 := Bump(c.r200, width))
    else if status == 400 then c.(r400 := Bump(c.r400, width))
    else if status == 404 then c.(r404 := Bump(c.r404, width))
    else if status == 405 then c.(r405 := Bump(c.r405, width))
    else if status == 500 then c.(r500 := Bump(c.r500, width))
    else c
  }

  function CountFound(c: Counts, width: Width): Counts {
    c.(found := Bump(c.found, width))
  }

  function CountNotFound(c: Counts, width: Width): Counts {
    c.(notFound := Bump(c.notFound, width))
  }

  function Requests(c: Counts): nat {
    c.lookup + c.health + c.metrics + c.other
  }

  function Responses(c: Counts): nat {
    c.r200 + c.r400 + c.r404 + c.r405 + c.r500
  }

  /** The value each 64-bit counter shows after so many increments. */
  function Wrapped(c: Counts): Counts {
    Counts(Wrap(c.lookup), Wrap(c.health), Wrap(c.metrics), Wrap(c.other),
           Wrap(c.r200), Wrap(c.r400), Wrap(c.r404), Wrap(c.r405), Wrap(c.r500),
           Wrap(c.found), Wrap(c.notFound))
  }

  /** Wrapping is counting modulo 2^64. */
  lemma {:induction false} WrapIsModulo(n: nat)
    ensures Wrap(n) == n % WRAP
  {
    if n >= WRAP {
      WrapIsModulo(n - WRAP);
      assert n == (n - WRAP) + WRAP;
    }
  }

  /** Wrapping a part of a sum first makes no difference. */
  lemma {:induction false} WrapSum(a: nat, b: nat)
    ensures Wrap(Wrap(a) + b) == Wrap(a + b)
  {
    if a >= WRAP {
      WrapSum(a - WRAP, b);
      assert a + b - WRAP == a - WRAP + b;
    }
  }

  /** Wrapping at every increment shows the same as wrapping the total. */
  lemma RequestWraps(c: Counts, b: Bucket)
    ensures CountRequest(Wrapped(c), b, U64) == Wrapped(CountRequest(c, b, Unbounded))
  {
    match b {
      case LookupPath => WrapSum(c.lookup, 1);
      case HealthPath => WrapSum(c.health, 1);
      case MetricsPath => WrapSum(c.metrics, 1);
      case OtherPath => WrapSum(c.other, 1);
    }
  }

  lemma ResponseWraps(c: Counts, status: nat)
    ensures CountResponse(Wrapped(c), status, U64) == Wrapped(CountResponse(c, status, Unbounded))
  {
    if status == 200 {
      WrapSum(c.r200, 1);
    } else if status == 400 {
      WrapSum(c.r400, 1);
    } else if status == 404 {
      WrapSum(c.r404, 1);
    } else if status == 405 {
      WrapSum(c.r405, 1);
    } else if status == 500 {
      WrapSum(c.r500, 1);
    }
  }

  // Sums that agree modulo 2^64 still do with one more counter.
  lemma OneMoreCounter(shown: nat, total: nat, n: nat)
    requires Wrap(shown) == Wrap(total)
    ensures Wrap(shown + Wrap(n)) == Wrap(total + n)
  {
    assert Wrap(Wrap(n) + shown) == Wrap(n + shown) by { WrapSum(n, shown); }
    assert Wrap(Wrap(shown) + n) == Wrap(shown + n) by { WrapSum(shown, n); }
    assert Wrap(Wrap(total) + n) == Wrap(total + n) by { WrapSum(total, n); }
  }

  /** Sums of shown values are the sums of totals, modulo 2^64. */
  lemma SumsWrap(c: Counts)
    ensures Wrap(Requests(Wrapped(c))) == Wrap(Requests(c))
    ensures Wrap(Responses(Wrapped(c))) == Wrap(Responses(c))
  {
    FourWrap(c.lookup, c.health, c.metrics, c.other);
    FourWrap(c.r200, c.r400, c.r404, c.r405);
    OneMoreCounter(Wrap(c.r200) + Wrap(c.r400) + Wrap(c.r404) + Wrap(c.r405),
                   c.r200 + c.r400 + c.r404 + c.r405, c.r500);
  }

  lemma FourWrap(a: nat, b: nat, c: nat, d: nat)
    ensures Wrap(Wrap(a) + Wrap(b) + Wrap(c) + Wrap(d)) == Wrap(a + b + c + d)
  {
    OneMoreCounter(0, 0, a);
    OneMoreCounter(Wrap(a), a, b);
    OneMoreCounter(Wrap(a) + Wrap(b), a + b, c);
    OneMoreCounter(Wrap(a) + Wrap(b) + Wrap(c), a + b + c, d);
  }

  /** The counters as the workers share them. */
  class Counters {
    var counts: Counts

    constructor ()
      ensures counts == ZERO
    {
      counts := ZERO;
    }

    method RecordRequest(path: string)
      modifies this
      ensures counts == CountRequest(old(counts), BucketOf(path), U64)
    {
      if path == "/lookup" {
        counts := counts.(lookup := Wrap(counts.lookup + 1));
      } else if path == "/health" {
        counts := counts.(health := Wrap(counts.health + 1));
      } else if path == "/metrics" {
        counts := counts.(metrics := Wrap(counts.metrics + 1));
      } else {
        counts := counts.(other := Wrap(counts.other + 1));
      }
    }

    method RecordResponse(status: nat)
      modifies this
      ensures counts == CountResponse(old(counts), status, U64)
    {
      match status {
        case 200 => counts := counts.(r200 := Wrap(counts.r200 + 1));
        case 400 => counts := counts.(r400 := Wrap(counts.r400 + 1));
        case 404 => counts := counts.(r404 := Wrap(counts.r404 + 1));
        case 405 => counts := counts.(r405 := Wrap(counts.r405 + 1));
        case 500 => counts := counts.(r500 := Wrap(counts.r500 + 1));
        case _ =>
      }
    }

    method RecordFound()
      modifies this
      ensures counts == CountFound(old(counts), U64)
    {
      counts := counts.(found := Wrap(counts.found + 1));
    }

    method RecordNotFound()
      modifies this
      ensures counts == CountNotFound(old(counts), U64)
    {
      counts := counts.(notFound := Wrap(counts.notFound + 1));
    }
  }
}
