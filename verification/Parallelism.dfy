/**
  Node counts and GPU parallelism: the solver that picks a node count, the validator that checks
  one, and the two suggestions in the validator's message (pkg/catalog/loader.go,
  pkg/controller/certification_controller.go). Arithmetic is that of 32-bit signed integers: it
  wraps around, and division truncates toward zero.
*/
module Parallelism {
  import opened Prelude

  const LIMIT := 0x8000_0000

  type Int32 = x: int | -LIMIT <= x < LIMIT

  function Wrap(x: int): (w: Int32)
    ensures -LIMIT <= x < LIMIT ==> w == x
  {
    var r := x % (2 * LIMIT);
    if r < LIMIT then r else r - 2 * LIMIT
  }

  function Abs(x: int): nat { if x < 0 then -x else x }

  function Quo(a: Int32, b: Int32): Int32
    requires b != 0
  {
    Wrap(if (a < 0) == (b < 0) then Abs(a) / Abs(b) else -(Abs(a) / Abs(b)))
  }

  function Rem(a: Int32, b: Int32): (r: Int32)
    requires b != 0
    ensures r == 0 <==> Abs(a) % Abs(b) == 0
  {
    if a < 0 then -(Abs(a) % Abs(b)) else Abs(a) % Abs(b)
  }

  // ---- Metadata of a catalog entry ----

  datatype Parallel = Parallel(tp: Int32, pp: Int32, ep: Int32)

  datatype Meta = Meta(minGPUs: Int32, parallelism: map<string, Parallel>)

  function GetParallel(meta: Meta, arch: string): Parallel {
    if arch in meta.parallelism then meta.parallelism[arch]
    else if "default" in meta.parallelism then meta.parallelism["default"]
    else Parallel(0, 0, 0)
  }

  /** `Panics` is a division by zero, when the product of TP and PP wraps to 0. */
  datatype Verdict = Accepts | TooFewGPUs | NotDivisible | NotExpertDivisible | Panics

  /** The body of the solver's loop. */
  function SolverCheck(meta: Meta, p: Parallel, n: Int32, gpusPerNode: Int32): Verdict {
    var total := Wrap(n * gpusPerNode);
    var tppp := Wrap(p.tp * p.pp);
    if meta.minGPUs > 0 && total < meta.minGPUs then TooFewGPUs
    else if p.tp > 0 && p.pp > 0 && tppp == 0 then Panics
    else if p.tp > 0 && p.pp > 0 && Rem(total, tppp) != 0 then NotDivisible
    else if p.ep > 0 && p.tp > 0 && p.pp > 0 && Rem(Quo(total, tppp), p.ep) != 0 then NotExpertDivisible
    else Accepts
  }

  /** validateParallelism. */
  function Validate(meta: Meta, arch: string, n: Int32, gpusPerNode: Int32): Verdict {
    if n <= 0 || gpusPerNode <= 0 then Accepts
    else
      var total := Wrap(n * gpusPerNode);
      if meta.minGPUs > 0 && total < meta.minGPUs then TooFewGPUs
      else
        var p := GetParallel(meta, arch);
        if p.tp <= 0 || p.pp <= 0 then Accepts
        else
          var tppp := Wrap(p.tp * p.pp);
          if tppp == 0 then Panics
          else if Rem(total, tppp) != 0 then NotDivisible
          else if p.ep > 0 && Rem(Quo(total, tppp), p.ep) != 0 then NotExpertDivisible
          else Accepts
  }

  /** The validator accepts every count of nodes without GPUs; the solver finds none. */
  lemma ValidatorAcceptsWithoutGPUs(n: Int32)
    requires n >= 1
    ensures var meta := Meta(8, map[]);
      && Validate(meta, "", n, 0) == Accepts
      && SolverCheck(meta, GetParallel(meta, ""), n, 0) == TooFewGPUs
  {
  }

  // ---- Divisibility ----

  lemma DivisibleTwice(t: nat, a: nat, e: nat)
    requires a > 0 && e > 0
    ensures a * e > 0
    ensures t % a == 0 && (t / a) % e == 0 <==> t % (a * e) == 0
  {
    Magnitude(a, e);
    if t % a == 0 && (t / a) % e == 0 {
      TwiceIsOnce(t, a, e, t / a, t / a / e);
    }
    if t % (a * e) == 0 {
      OnceIsTwice(t, a, e, t / (a * e));
    }
  }

  lemma TwiceIsOnce(t: nat, a: nat, e: nat, q: nat, k: nat)
    requires a > 0 && e > 0 && a * e > 0 && t == q * a && q == k * e
    ensures t % (a * e) == 0
  {
    Associates(k, e, a);
    MultipleModulo(k, a * e);
  }

  lemma OnceIsTwice(t: nat, a: nat, e: nat, k: nat)
    requires a > 0 && e > 0 && t == k * (a * e)
    ensures t % a == 0 && (t / a) % e == 0
  {
    Associates(k, e, a);
    MultipleModulo(k * e, a);
    MultipleQuotient(k * e, a);
    MultipleModulo(k, e);
  }

  lemma Associates(k: nat, e: nat, a: nat)
    ensures (k * e) * a == k * (a * e)
  {
  }

  lemma MultipleModulo(k: nat, a: nat)
    requires a > 0
    ensures (k * a) % a == 0
  {
    UniqueQuotient(k * a, a, k, 0);
  }

  lemma MultipleQuotient(k: nat, a: nat)
    requires a > 0
    ensures (k * a) / a == k
  {
    UniqueQuotient(k * a, a, k, 0);
  }

  lemma UniqueQuotient(t: nat, a: nat, q: nat, r: nat)
    requires a > 0 && t == q * a + r && r < a
    ensures t / a == q && t % a == r
  {
    var d := q - t / a;
    Distributes(q, t / a, a);
    SmallMultiple(d, a, t % a - r);
  }

  lemma Distributes(q: int, p: int, a: int)
    ensures (q - p) * a == q * a - p * a
  {
  }

  lemma SmallMultiple(d: int, a: int, x: int)
    requires d * a == x && -a < x < a
    ensures d == 0
  {
  }

  lemma Magnitude(d: int, a: int)
    requires a >= 0
    ensures d >= 1 ==> d * a >= a
    ensures d <= -1 ==> d * a <= -a
  {
  }

  lemma QuoPositive(a: Int32, b: Int32)
    requires a >= 0 && b > 0
    ensures Quo(a, b) == a / b
  {
  }

  lemma AbsQuo(a: Int32, b: Int32)
    requires b != 0
    ensures Abs(Quo(a, b)) == Abs(a) / Abs(b)
  {
    DivideBounds(Abs(a), Abs(b));
  }

  /** A GPU total, after wrapping, that meets the minimum and is a multiple of what the entry asks for. */
  predicate Harmless(meta: Meta, p: Parallel, total: Int32) {
    && (meta.minGPUs > 0 ==> total >= meta.minGPUs)
    && (p.tp > 0 && p.pp > 0 ==>
          var tppp := Abs(Wrap(p.tp * p.pp));
          tppp > 0 && Abs(total) % (tppp * Max(p.ep, 1)) == 0)
  }

  /**
    The two checks agree exactly when the node has GPUs, or the GPU total, which is then 0 or the
    product of a count and a negative number, happens to meet the constraints all the same.
  */
  lemma ChecksAgreeIff(meta: Meta, arch: string, n: Int32, gpusPerNode: Int32)
    requires n >= 1
    ensures
      SolverCheck(meta, GetParallel(meta, arch), n, gpusPerNode) == Validate(meta, arch, n, gpusPerNode) <==>
      gpusPerNode > 0 || Harmless(meta, GetParallel(meta, arch), Wrap(n * gpusPerNode))
  {
    SolverAcceptsIff(meta, GetParallel(meta, arch), n, gpusPerNode);
    hide Wrap, Quo, Rem, Harmless;
  }

  /** What the solver's loop accepts, as one condition on the total. */
  lemma SolverAcceptsIff(meta: Meta, p: Parallel, n: Int32, gpusPerNode: Int32)
    ensures SolverCheck(meta, p, n, gpusPerNode) == Accepts <==> Harmless(meta, p, Wrap(n * gpusPerNode))
  {
    var total, tppp := Wrap(n * gpusPerNode), Wrap(p.tp * p.pp);
    hide Wrap;
    if tppp != 0 {
      AbsQuo(total, tppp);
      DivisibleTwice(Abs(total), Abs(tppp), Max(p.ep, 1));
      hide Quo;
    }
  }

  /** What the validator says of a count, case by case. */
  lemma ValidateDecides(meta: Meta, arch: string, n: Int32, gpusPerNode: Int32)
    ensures var p, total := GetParallel(meta, arch), Wrap(n * gpusPerNode);
      var verdict, judged := Validate(meta, arch, n, gpusPerNode), n > 0 && gpusPerNode > 0;
      var enough, divides := meta.minGPUs <= 0 || total >= meta.minGPUs, p.tp > 0 && p.pp > 0;
      var tppp := Abs(Wrap(p.tp * p.pp));
      && (verdict == TooFewGPUs <==> judged && !enough)
      && (verdict == Panics <==> judged && enough && divides && tppp == 0)
      && (verdict == NotDivisible <==> judged && enough && divides && tppp != 0 && Abs(total) % tppp != 0)
      && (verdict == Accepts <==> !judged || Harmless(meta, p, total))
  {
    if n > 0 && gpusPerNode > 0 {
      ChecksAgreeIff(meta, arch, n, gpusPerNode);
      SolverAcceptsIff(meta, GetParallel(meta, arch), n, gpusPerNode);
      hide SolverCheck;
    }
    hide Wrap, Quo, Harmless;
  }

  /** Without GPUs: exactly when no minimum is set and the product of TP and PP does not wrap to 0. */
  lemma ChecksAgreeWithoutGPUs(meta: Meta, arch: string, n: Int32)
    requires n >= 1
    ensures var p := GetParallel(meta, arch);
      SolverCheck(meta, p, n, 0) == Validate(meta, arch, n, 0) <==>
      meta.minGPUs <= 0 && (p.tp > 0 && p.pp > 0 ==> Wrap(p.tp * p.pp) != 0)
  {
    ChecksAgreeIff(meta, arch, n, 0);
    var p := GetParallel(meta, arch);
    var k := Abs(Wrap(p.tp * p.pp)) * Max(p.ep, 1);
    assert Wrap(n * 0) == 0;
    hide SolverCheck, Validate;
    if Wrap(p.tp * p.pp) != 0 {
      MultipleModulo(0, k);
    }
  }

  /** When no product wraps, the two-stage check is one divisibility by TP * PP * EP. */
  lemma TwoStagesAreOne(meta: Meta, arch: string, n: Int32, gpusPerNode: Int32)
    requires n > 0 && gpusPerNode > 0 && n * gpusPerNode < LIMIT
    requires var p := GetParallel(meta, arch); p.tp > 0 && p.pp > 0 && p.ep > 0 && p.tp * p.pp < LIMIT
    ensures var p, total := GetParallel(meta, arch), n * gpusPerNode;
      && p.tp * p.pp * p.ep > 0
      && (Validate(meta, arch, n, gpusPerNode) == Accepts <==>
          (meta.minGPUs > 0 ==> total >= meta.minGPUs) && total % (p.tp * p.pp * p.ep) == 0)
  {
    var p, total := GetParallel(meta, arch), n * gpusPerNode;
    var tppp := p.tp * p.pp;
    assert tppp > 0 && total > 0;
    QuoPositive(total, tppp);
    DivisibleTwice(total, tppp, p.ep);
    hide Quo;
  }

  // ---- The solver ----

  /** Some count up to the ceiling fits, none does, or the search stops in a division by zero. */
  datatype Choice = Chosen(n: Int32) | NoneFits | Crashed

  ghost predicate RejectsAll(meta: Meta, arch: string, gpusPerNode: Int32, lo: int, hi: Int32) {
    forall n: Int32 :: lo < n <= hi && n >= 1 ==>
      SolverCheck(meta, GetParallel(meta, arch), n, gpusPerNode) !in {Accepts, Panics}
  }

  /** MaxValidNodes: the largest count up to `available` that the check accepts. */
  method MaxValidNodes(meta: Meta, available: Int32, gpusPerNode: Int32, arch: string) returns (choice: Choice)
    ensures choice.Chosen? ==>
      && 1 <= choice.n <= available && RejectsAll(meta, arch, gpusPerNode, choice.n, available)
      && SolverCheck(meta, GetParallel(meta, arch), choice.n, gpusPerNode) == Accepts
    ensures choice.NoneFits? ==> RejectsAll(meta, arch, gpusPerNode, 0, available)
    ensures choice.Crashed? ==>
      exists n: Int32 :: 1 <= n <= available && SolverCheck(meta, GetParallel(meta, arch), n, gpusPerNode) == Panics
  {
    hide SolverCheck;
    var n: Int32 := available;
    while n >= 1
      invariant n <= available && RejectsAll(meta, arch, gpusPerNode, n, available)
    {
      var verdict := SolverCheck(meta, GetParallel(meta, arch), n, gpusPerNode);
      if verdict == Panics {
        return Crashed;
      }
      if verdict == Accepts {
        return Chosen(n);
      }
      n := n - 1;
    }
    choice := NoneFits;
  }

  /** min(requested, len(nodes)); the length is converted to 32 bits. */
  function Ceiling(nodes: nat, requested: Option<Int32>): (c: Int32)
    ensures c <= Wrap(nodes) && (requested.Some? ==> c <= requested.value)
    ensures c == Wrap(nodes) || (requested.Some? && c == requested.value)
  {
    if requested.Some? then Min(requested.value, Wrap(nodes)) else Wrap(nodes)
  }

  /** resolveNodesPerJob for an entry with constraints; NoneFits stands for both of its errors. */
  method ResolveNodesPerJob(meta: Meta, nodes: nat, requested: Option<Int32>, gpusPerNode: Int32, arch: string)
    returns (choice: Choice)
    ensures choice.Chosen? && gpusPerNode > 0 ==>
      && 1 <= choice.n <= Ceiling(nodes, requested)
      && Validate(meta, arch, choice.n, gpusPerNode) == Accepts
      && forall n: Int32 :: choice.n < n <= Ceiling(nodes, requested) ==>
           Validate(meta, arch, n, gpusPerNode) !in {Accepts, Panics}
    ensures choice.NoneFits? && gpusPerNode > 0 ==>
      forall n: Int32 :: 1 <= n <= Ceiling(nodes, requested) ==>
        Validate(meta, arch, n, gpusPerNode) !in {Accepts, Panics}
    ensures choice.Crashed? && gpusPerNode > 0 ==>
      exists n: Int32 :: 1 <= n <= Ceiling(nodes, requested) && Validate(meta, arch, n, gpusPerNode) == Panics
  {
    forall n: Int32 | n >= 1
      ensures gpusPerNode > 0 ==>
        SolverCheck(meta, GetParallel(meta, arch), n, gpusPerNode) == Validate(meta, arch, n, gpusPerNode)
    {
      ChecksAgreeIff(meta, arch, n, gpusPerNode);
    }
    hide SolverCheck, Validate;
    if Wrap(nodes) == 0 {
      return NoneFits;
    }
    choice := MaxValidNodes(meta, Ceiling(nodes, requested), gpusPerNode, arch);
  }

  // ---- Suggestions ----

  predicate Fits(n: Int32, gpusPerNode: Int32, tppp: Int32)
    requires tppp != 0
  {
    Rem(Wrap(n * gpusPerNode), tppp) == 0
  }

  /** The largest count at or below the present one that divides, or 0 when there is none. */
  method MaxNodesBelow(totalGPUs: Int32, gpusPerNode: Int32, tppp: Int32) returns (best: Int32)
    requires gpusPerNode > 0 && tppp != 0
    ensures 0 <= best && (best > 0 ==> best <= Quo(totalGPUs, gpusPerNode) && Fits(best, gpusPerNode, tppp))
    ensures forall n: Int32 :: best < n <= Quo(totalGPUs, gpusPerNode) ==> !Fits(n, gpusPerNode, tppp)
  {
    hide Fits;
    var n: Int32 := Quo(totalGPUs, gpusPerNode);
    while n > 0
      invariant n <= Quo(totalGPUs, gpusPerNode)
      invariant forall k: Int32 :: n < k <= Quo(totalGPUs, gpusPerNode) && k > 0 ==> !Fits(k, gpusPerNode, tppp)
    {
      if Fits(n, gpusPerNode, tppp) {
        return n;
      }
      n := n - 1;
    }
    best := 0;
  }

  ghost predicate NoneFit(lo: int, hi: int, gpusPerNode: Int32, tppp: Int32)
    requires tppp != 0
  {
    forall n: Int32 :: lo < n < hi ==> !Fits(n, gpusPerNode, tppp)
  }

  /** The distance to 0 going up, around the end of the range. */
  function StepsToZero(n: int): int { if n <= 0 then -n else 2 * LIMIT - n }

  lemma ZeroFits(gpusPerNode: Int32, tppp: Int32)
    requires tppp != 0
    ensures Fits(0, gpusPerNode, tppp)
  {
    assert 0 * gpusPerNode == 0;
    ZeroModulo(Abs(tppp));
    hide Wrap;
  }

  lemma ZeroModulo(a: nat)
    requires a > 0
    ensures 0 % a == 0
  {
    MultipleModulo(0, a);
  }

  lemma FactorFits(q: nat, b: nat, x: nat)
    requires b > 0 && q * b <= x
    ensures q <= x
  {
    Magnitude(b, q);
  }

  lemma DivideBounds(x: nat, b: nat)
    requires b > 0
    ensures 0 <= x / b <= x
    ensures x >= b ==> x / b >= 1
  {
    FactorFits(x / b, b, x);
  }

  lemma QuoBounds(a: Int32, b: Int32)
    requires b > 0
    ensures a < 0 ==> a <= Quo(a, b) <= 0
    ensures a >= 0 ==> 0 <= Quo(a, b) <= a
    ensures a >= b ==> Quo(a, b) >= 1
  {
    DivideBounds(Abs(a), b);
  }

  /**
    The smallest count above the present one, and up to the number of GPUs, that divides; 0 when
    there is none. At the largest 32-bit total the loop variable wraps, and a count that is not
    positive may come out instead of 0.
  */
  method MinNodesAbove(totalGPUs: Int32, gpusPerNode: Int32, tppp: Int32) returns (best: Int32)
    requires gpusPerNode > 0 && tppp != 0
    ensures IsAbove(totalGPUs, gpusPerNode, tppp, best)
    ensures best < 0 ==> totalGPUs == LIMIT - 1
  {
    hide Fits, Quo;
    QuoBounds(totalGPUs, gpusPerNode);
    ZeroFits(gpusPerNode, tppp);
    var now: int := Quo(totalGPUs, gpusPerNode);
    var n: Int32 := Wrap(now + 1);
    while n <= totalGPUs
      invariant
        || (n > now && NoneFit(now, n, gpusPerNode, tppp))
        || (n <= 0 && totalGPUs == LIMIT - 1 && NoneFit(now, LIMIT, gpusPerNode, tppp))
      decreases StepsToZero(n)
    {
      if Fits(n, gpusPerNode, tppp) {
        return n;
      }
      var next: int := n;
      n := Wrap(next + 1);
    }
    best := 0;
  }

  // ---- What wrap-around does to the suggestions ----

  /** The count divides, without wrap-around. */
  predicate Divides(n: Int32, gpusPerNode: Int32, tppp: Int32)
    requires tppp != 0
  {
    Abs(n * gpusPerNode) % Abs(tppp) == 0
  }

  /** The largest dividing count at or below the present one: products never wrap on the way down. */
  lemma BelowNeverWraps(totalGPUs: Int32, gpusPerNode: Int32, tppp: Int32, n: Int32)
    requires gpusPerNode > 0 && tppp != 0 && 0 < n <= Quo(totalGPUs, gpusPerNode)
    ensures Fits(n, gpusPerNode, tppp) <==> Divides(n, gpusPerNode, tppp)
  {
    QuoBounds(totalGPUs, gpusPerNode);
    QuoPositive(totalGPUs, gpusPerNode);
    hide Quo;
    var q := totalGPUs / gpusPerNode;
    assert q * gpusPerNode <= totalGPUs;
    Magnitude(q - n, gpusPerNode);
    Distributes(q, n, gpusPerNode);
    Magnitude(n, gpusPerNode);
    assert n == q || (q - n) * gpusPerNode >= gpusPerNode;
  }

  /** Wrap-around turns a count that divides into one that does not, or the other way round. */
  predicate Distorted(n: Int32, gpusPerNode: Int32, tppp: Int32)
    requires tppp != 0
  {
    Fits(n, gpusPerNode, tppp) != Divides(n, gpusPerNode, tppp)
  }

  /** What minNodesAbove returns. */
  ghost predicate IsAbove(totalGPUs: Int32, gpusPerNode: Int32, tppp: Int32, best: Int32)
    requires gpusPerNode > 0 && tppp != 0
  {
    && (best > 0 ==>
          && Quo(totalGPUs, gpusPerNode) < best <= totalGPUs && Fits(best, gpusPerNode, tppp)
          && NoneFit(Quo(totalGPUs, gpusPerNode), best, gpusPerNode, tppp))
    && (best <= 0 ==> NoneFit(Quo(totalGPUs, gpusPerNode), totalGPUs + 1, gpusPerNode, tppp))
  }

  /** What it is documented to return: the nearest count above that divides, and none only if there is none. */
  ghost predicate IsNearestAbove(totalGPUs: Int32, gpusPerNode: Int32, tppp: Int32, best: Int32)
    requires gpusPerNode > 0 && tppp != 0
  {
    && (best > 0 ==> Divides(best, gpusPerNode, tppp))
    && forall n: Int32 :: Quo(totalGPUs, gpusPerNode) < n < (if best > 0 then best else totalGPUs + 1) ==>
         !Divides(n, gpusPerNode, tppp)
  }

  /** The suggestion is the documented one exactly when no count on the way to it is distorted. */
  lemma SuggestionIsNearestIff(totalGPUs: Int32, gpusPerNode: Int32, tppp: Int32, best: Int32)
    requires gpusPerNode > 0 && tppp != 0 && IsAbove(totalGPUs, gpusPerNode, tppp, best)
    ensures IsNearestAbove(totalGPUs, gpusPerNode, tppp, best) <==>
      forall n: Int32 :: Quo(totalGPUs, gpusPerNode) < n <= (if best > 0 then best else totalGPUs) ==>
        !Distorted(n, gpusPerNode, tppp)
  {
    QuoBounds(totalGPUs, gpusPerNode);
    hide Quo, Fits, Divides;
    var now, end: int := Quo(totalGPUs, gpusPerNode), if best > 0 then best else totalGPUs;
    forall n: Int32 | now < n <= end
      ensures Distorted(n, gpusPerNode, tppp) <==> Divides(n, gpusPerNode, tppp) != (n == best)
    {
      assert n != best ==> !Fits(n, gpusPerNode, tppp);
    }
    if n: Int32 :| now < n <= end && Distorted(n, gpusPerNode, tppp) {
      assert Divides(n, gpusPerNode, tppp) != (n == best);
    }
  }

  /** One node of 2^30 GPUs, and TP * PP = 3: the suggestion is 4 nodes, which do not divide, while 3 do. */
  lemma WrappedSuggestionIsWrong()
    ensures var g: Int32 := 0x4000_0000;
      IsAbove(g, g, 3, 4) && !Divides(4, g, 3) && Divides(3, g, 3)
  {
    var g: Int32 := 0x4000_0000;
    assert Quo(g, g) == 1;
    assert Wrap(2 * g) == -LIMIT && Wrap(3 * g) == -0x4000_0000 && Wrap(4 * g) == 0;
    assert !Fits(2, g, 3) && !Fits(3, g, 3) && Fits(4, g, 3);
    hide Quo, Fits, Wrap;
    forall n: Int32 | 1 < n < 4 ensures !Fits(n, g, 3) {
      assert n == 2 || n == 3;
    }
  }

  /**
    A larger count that divides fails the validator only on expert parallelism, or because its GPU
    total wraps below the minimum.
  */
  lemma LargerSuggestionIsValid(meta: Meta, arch: string, n: Int32, more: Int32, gpusPerNode: Int32)
    requires 0 < n < more && gpusPerNode > 0
    requires Validate(meta, arch, n, gpusPerNode) == NotDivisible
    requires var p := GetParallel(meta, arch); Fits(more, gpusPerNode, Wrap(p.tp * p.pp))
    ensures Validate(meta, arch, more, gpusPerNode) in {Accepts, NotExpertDivisible, TooFewGPUs}
    ensures Validate(meta, arch, more, gpusPerNode) == TooFewGPUs <==>
      meta.minGPUs > 0 && Wrap(more * gpusPerNode) < meta.minGPUs
    ensures more * gpusPerNode < LIMIT ==> Validate(meta, arch, more, gpusPerNode) != TooFewGPUs
    ensures GetParallel(meta, arch).ep <= 0 ==> Validate(meta, arch, more, gpusPerNode) != NotExpertDivisible
  {
    hide Wrap, Quo, Rem;
    Magnitude(more - n, gpusPerNode);
    Distributes(more, n, gpusPerNode);
    Magnitude(n, gpusPerNode);
  }
}
