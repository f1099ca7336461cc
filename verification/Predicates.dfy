/** Scalar predicates: matching, block pruning by value bounds, and the legacy form. */
module Predicates {
  import opened Wrappers
  import opened Bytes

  datatype Expr =
    | Eq(target: i64)
    | Ne(target: i64)
    | Gt(target: i64)
    | Gte(target: i64)
    | Lt(target: i64)
    | Lte(target: i64)
    | Between(min: i64, max: i64, inclusive: bool)
    | InSet(values: seq<i64>)
    | NotInSet(values: seq<i64>)
  {
    predicate Matches(v: i64) {
      match this
      case Eq(t) => v == t
      case Ne(t) => v != t
      case Gt(t) => v > t
      case Gte(t) => v >= t
      case Lt(t) => v < t
      case Lte(t) => v <= t
      case Between(min, max, inclusive) => if inclusive then v >= min && v <= max else v > min && v < max
      case InSet(values) => v in values
      case NotInSet(values) => v !in values
    }

    /** Whether a block whose values lie in `lo..hi` has to be read. */
    predicate MayMatch(lo: i64, hi: i64) {
      match this
      case Eq(t) => lo <= t && hi >= t
      case Ne(t) => !(lo == t && hi == t)
      case Gt(t) => hi > t
      case Gte(t) => hi >= t
      case Lt(t) => lo < t
      case Lte(t) => lo <= t
      case Between(min, max, inclusive) => if inclusive then hi >= min && lo <= max else hi > min && lo < max
      case InSet(values) => exists i :: 0 <= i < |values| && lo <= values[i] <= hi
      case NotInSet(values) => values == [] || !(lo == hi && lo in values)
    }
  }

  /** How the predicates relate: complements, conjunctions, and sets as their members. */
  lemma {:induction false} PredicatesRelate(t: i64, u: i64, values: seq<i64>, v: i64)
    ensures Ne(t).Matches(v) <==> !Eq(t).Matches(v)
    ensures Lte(t).Matches(v) <==> !Gt(t).Matches(v)
    ensures Lt(t).Matches(v) <==> !Gte(t).Matches(v)
    ensures Gte(t).Matches(v) <==> Gt(t).Matches(v) || Eq(t).Matches(v)
    ensures Gt(t).Matches(v) <==> Lt(v).Matches(t)
    ensures Eq(t).Matches(v) <==> Gte(t).Matches(v) && Lte(t).Matches(v)
    ensures Between(t, u, true).Matches(v) <==> Gte(t).Matches(v) && Lte(u).Matches(v)
    ensures Between(t, u, false).Matches(v) <==> Gt(t).Matches(v) && Lt(u).Matches(v)
    ensures InSet(values).Matches(v) <==> exists i :: 0 <= i < |values| && Eq(values[i]).Matches(v)
    ensures NotInSet(values).Matches(v) <==> !InSet(values).Matches(v)
    ensures Eq(t).Matches(t) && Gt(t).Matches(v) ==> v != t
  {
  }

  /** Blocks of values with the bounds their index stores. */
  datatype Block = Block(lo: i64, hi: i64, values: seq<i64>)

  ghost predicate Covers(b: Block) {
    forall i :: 0 <= i < |b.values| ==> b.lo <= b.values[i] <= b.hi
  }

  function Matching(e: Expr, values: seq<i64>): seq<i64> {
    if values == [] then [] else (if e.Matches(values[0]) then [values[0]] else []) + Matching(e, values[1..])
  }

  function Scanned(e: Expr, blocks: seq<Block>): seq<i64> {
    if blocks == [] then []
    else
      (if e.MayMatch(blocks[0].lo, blocks[0].hi) then Matching(e, blocks[0].values) else []) +
      Scanned(e, blocks[1..])
  }

  function AllValues(blocks: seq<Block>): seq<i64> {
    if blocks == [] then [] else blocks[0].values + AllValues(blocks[1..])
  }

  lemma {:induction false} MatchingAppend(e: Expr, a: seq<i64>, b: seq<i64>)
    ensures Matching(e, a + b) == Matching(e, a) + Matching(e, b)
  {
    if a == [] {
      assert a + b == b;
    } else {
      MatchingAppend(e, a[1..], b);
      assert (a + b)[1..] == a[1..] + b;
      PlusAssociates(if e.Matches(a[0]) then [a[0]] else [], Matching(e, a[1..]), Matching(e, b));
    }
  }

  lemma {:induction false} SkippedHasNone(e: Expr, lo: i64, hi: i64, values: seq<i64>)
    requires !e.MayMatch(lo, hi)
    requires forall i :: 0 <= i < |values| ==> lo <= values[i] <= hi
    ensures Matching(e, values) == []
  {
    if values != [] {
      SkippedHasNone(e, lo, hi, values[1..]);
    }
  }

  /** For any partition into blocks, skipping what the bounds rule out finds what a full scan finds, in order. */
  lemma {:induction false} PruningIsExact(e: Expr, blocks: seq<Block>)
    requires forall i :: 0 <= i < |blocks| ==> Covers(blocks[i])
    ensures Scanned(e, blocks) == Matching(e, AllValues(blocks))
  {
    if blocks != [] {
      var b := blocks[0];
      PruningIsExact(e, blocks[1..]);
      MatchingAppend(e, b.values, AllValues(blocks[1..]));
      if !e.MayMatch(b.lo, b.hi) {
        assert Covers(b);
        SkippedHasNone(e, b.lo, b.hi, b.values);
      }
    }
  }

  // When the bounds test is not just safe but sharp

  /** A block with these bounds is read exactly when some value within them matches. */
  ghost predicate SharpAt(e: Expr, lo: i64, hi: i64) {
    e.MayMatch(lo, hi) <==> exists v: i64 :: lo <= v <= hi && e.Matches(v)
  }

  ghost predicate SharpEverywhere(e: Expr) {
    forall lo: i64, hi: i64 :: lo <= hi ==> SharpAt(e, lo, hi)
  }

  /**
   * Intervals that hold a value, or that no bounds can meet, and exclusion sets without two
   * neighbouring values; every other predicate.
   */
  predicate Exact(e: Expr) {
    match e
    case Between(min, max, true) => min <= max
    case Between(min, max, false) => max - min >= 2 || min == I64_MAX || max == I64_MIN
    case NotInSet(values) => forall i, j :: 0 <= i < |values| && 0 <= j < |values| ==> values[j] != values[i] as int + 1
    case _ => true
  }

  /** A value the predicate matches within bounds the test lets through. */
  lemma {:induction false} Witness(e: Expr, lo: i64, hi: i64) returns (v: i64)
    requires lo <= hi && Exact(e) && e.MayMatch(lo, hi)
    ensures lo <= v <= hi && e.Matches(v)
  {
    match e
    case Eq(t) => v := t;
    case Ne(t) => v := if lo == t then hi else lo;
    case Gt(_) => v := hi;
    case Gte(_) => v := hi;
    case Lt(_) => v := lo;
    case Lte(_) => v := lo;
    case Between(min, _, inclusive) =>
      var least := if inclusive then min else min + 1;
      v := if lo >= least then lo else least;
    case InSet(values) =>
      var i :| 0 <= i < |values| && lo <= values[i] <= hi;
      v := values[i];
    case NotInSet(values) => v := if lo in values && lo < hi then lo + 1 else lo;
  }

  lemma {:induction false} Refuted(e: Expr, lo: i64, hi: i64)
    requires lo <= hi && e.MayMatch(lo, hi) && forall v: i64 :: lo <= v <= hi ==> !e.Matches(v)
    ensures !SharpEverywhere(e)
  {
    assert !SharpAt(e, lo, hi);
  }

  /** The bounds test is sharp for all bounds exactly for these predicates. */
  lemma {:induction false} BoundsTestSharpExactly(e: Expr)
    ensures SharpEverywhere(e) <==> Exact(e)
  {
    if Exact(e) {
      forall lo: i64, hi: i64 | lo <= hi
        ensures SharpAt(e, lo, hi)
      {
        if e.MayMatch(lo, hi) {
          var v := Witness(e, lo, hi);
        }
      }
    } else if e.Between? {
      Refuted(e, I64_MIN, I64_MAX);
    } else {
      var i, j :| 0 <= i < |e.values| && 0 <= j < |e.values| && e.values[j] == e.values[i] as int + 1;
      assert e.values[i] in e.values && e.values[j] in e.values;
      Refuted(e, e.values[i], e.values[j]);
    }
  }

  // The legacy predicate

  datatype Op = OpGt | OpGte | OpLt | OpLte | OpEq | OpBetween

  datatype Legacy = Legacy(op: Op, value: i64, value2: Option<i64>) {
    function Bounds(): Result<(i64, i64)> {
      if value2.None? then Err(InvalidInput)
      else if value <= value2.value then Ok((value, value2.value))
      else Ok((value2.value, value))
    }

    function Matches(v: i64): Result<bool> {
      match op
      case OpGt => Ok(v > value)
      case OpGte => Ok(v >= value)
      case OpLt => Ok(v < value)
      case OpLte => Ok(v <= value)
      case OpEq => Ok(v == value)
      case OpBetween =>
        var bounds :- Bounds();
        Ok(v >= bounds.0 && v <= bounds.1)
    }
  }

  /** How the legacy operators relate; the order of the two bounds does not matter, and both are needed. */
  lemma {:induction false} LegacyRelates(t: i64, u: i64, other: Option<i64>, v: i64)
    ensures Legacy(OpGt, t, other).Matches(v).Ok? && Legacy(OpLt, t, other).Matches(v).Ok?
    ensures Legacy(OpGte, t, other).Matches(v) == Ok(!Legacy(OpLt, t, other).Matches(v).value)
    ensures Legacy(OpLte, t, other).Matches(v) == Ok(!Legacy(OpGt, t, other).Matches(v).value)
    ensures Legacy(OpGt, t, other).Matches(v) == Legacy(OpLt, v, other).Matches(t)
    ensures Legacy(OpEq, t, other).Matches(v) == Ok(v == t) && !Legacy(OpGt, t, other).Matches(t).value
    ensures v == t + 1 ==> Legacy(OpGt, t, other).Matches(v).value
    ensures Legacy(OpBetween, t, None).Matches(v) == Err(InvalidInput)
    ensures Legacy(OpBetween, t, Some(u)).Matches(v) == Legacy(OpBetween, u, Some(t)).Matches(v)
    ensures t <= u ==>
              (Legacy(OpBetween, t, Some(u)).Matches(v) == Ok(true) <==>
                 Legacy(OpGte, t, other).Matches(v).value && Legacy(OpLte, u, other).Matches(v).value)
  {
  }

  function Convert(p: Legacy): Result<Expr> {
    match p.op
    case OpGt => Ok(Gt(p.value))
    case OpGte => Ok(Gte(p.value))
    case OpLt => Ok(Lt(p.value))
    case OpLte => Ok(Lte(p.value))
    case OpEq => Ok(Eq(p.value))
    case OpBetween =>
      if p.value2.None? then Err(InvalidInput)
      else if p.value <= p.value2.value then Ok(Between(p.value, p.value2.value, true))
      else Ok(Between(p.value2.value, p.value, true))
  }

  /** Conversion fails exactly when matching does, agrees on every candidate, and always yields an exact predicate. */
  lemma {:induction false} ConversionAgrees(p: Legacy, v: i64)
    ensures Convert(p).Ok? <==> p.Matches(v).Ok?
    ensures Convert(p).Ok? ==> p.Matches(v) == Ok(Convert(p).value.Matches(v)) && Exact(Convert(p).value)
  {
  }
}
