/** The adaptive measurement loop of vhost-test/mg.lua: measure where it matters most until
    neighbouring rates are close enough. */
module RateSearch {
  import opened Vppinfra

  // ---------- numbers as Lua has them, without rounding ----------

  datatype Num = Fin(value: real) | PosInf | NegInf | NaN

  function Plus(x: Num, y: real): Num {
    if x.Fin? then Fin(x.value + y) else x
  }

  function Inf(positive: bool): Num {
    if positive then PosInf else NegInf
  }

  function Div(x: Num, y: Num): Num {
    match (x, y)
    case (Fin(a), Fin(b)) => if b != 0.0 then Fin(a / b) else if a == 0.0 then NaN else Inf(a > 0.0)
    case (Fin(a), NaN) => NaN
    case (Fin(a), _) => Fin(0.0)
    case (NaN, _) => NaN
    case (_, Fin(b)) => Inf((x == PosInf) == (b >= 0.0))
    case _ => NaN
  }

  predicate Greater(x: Num, y: Num) {
    match (x, y)
    case (Fin(a), Fin(b)) => a > b
    case (NaN, _) => false
    case (_, NaN) => false
    case (PosInf, _) => y != PosInf
    case (_, NegInf) => x != NegInf
    case _ => false
  }

  /** The base-2 logarithm; log2 is it on the positive numbers. */
  function Log2(log2: real -> real, x: Num): Num {
    match x
    case Fin(a) => if a > 0.0 then Fin(log2(a)) else if a == 0.0 then NegInf else NaN
    case PosInf => PosInf
    case _ => NaN
  }

  // ---------- what makes a pair of neighbours interesting ----------

  datatype Result = Result(rate: real, dropRate: Num)

  /** The options, with the thresholds as rates: most is maxRateInterval and least is
      minRateInterval, in percent of the link rate. */
  datatype Args = Args(most: real, least: real, target: real)

  /** The options as they are given. */
  datatype Options = Options(maxRateInterval: real, minRateInterval: real, target: real)

  function ArgsOf(options: Options, link: real): Args {
    Args((options.maxRateInterval * link) / 100.0, (options.minRateInterval * link) / 100.0, options.target)
  }

  ghost predicate ArgsOk(a: Args) {
    a.most > 0.0 && a.least > 0.0
  }

  const EPS: real := 0.00000001

  function DropRatio(r1: Result, r2: Result): Num {
    if Greater(r1.dropRate, r2.dropRate) then Div(Plus(r1.dropRate, EPS), Plus(r2.dropRate, EPS))
    else Div(Plus(r2.dropRate, EPS), Plus(r1.dropRate, EPS))
  }

  function Meaning(args: Args, log2: real -> real, r1: Result, r2: Result): Num
    requires args.most != 0.0
  {
    Plus(Log2(log2, Div(DropRatio(r1, r2), Fin(args.target))), (r2.rate - r1.rate) / args.most)
  }

  predicate Wanted(args: Args, r1: Result, r2: Result) {
    || r2.rate - r1.rate > args.most
    || (Greater(DropRatio(r1, r2), Fin(args.target)) && r2.rate - r1.rate > args.least)
  }

  /** The pair may be chosen. */
  predicate Eligible(args: Args, log2: real -> real, r1: Result, r2: Result)
    requires args.most != 0.0
  {
    Wanted(args, r1, r2) && Greater(Meaning(args, log2, r1, r2), Fin(0.0))
  }

  // ---------- rates in order ----------

  predicate Sorted(rates: seq<real>) {
    forall i, j :: 0 <= i < j < |rates| ==> rates[i] <= rates[j]
  }

  function Rates(results: seq<Result>): (r: seq<real>)
    ensures |r| == |results|
  {
    seq(|results|, i requires 0 <= i < |results| => results[i].rate)
  }

  lemma HeadLeast(a: seq<real>, x: real)
    requires Sorted(a) && x in a
    ensures a[0] <= x
  {
  }

  lemma Tail(a: seq<real>)
    requires a != []
    ensures multiset(a[1..]) == multiset(a) - multiset{a[0]}
    ensures Sorted(a) ==> Sorted(a[1..])
  {
    assert a == [a[0]] + a[1..];
  }

  lemma SameHead(a: seq<real>, b: seq<real>)
    requires Sorted(a) && Sorted(b) && multiset(a) == multiset(b) && a != []
    ensures b != [] && a[0] == b[0]
  {
    hide Sorted;
    assert a[0] in multiset(a);
    assert a[0] in b;
    assert b[0] in multiset(b);
    assert b[0] in a;
    HeadLeast(a, b[0]);
    HeadLeast(b, a[0]);
  }

  /** A sorted sequence is determined by its elements. */
  lemma {:induction false} SortedUnique(a: seq<real>, b: seq<real>)
    requires Sorted(a) && Sorted(b) && multiset(a) == multiset(b)
    ensures a == b
  {
    hide Sorted;
    if a == [] {
      assert b == [] by {
        if b != [] {
          SameHead(b, a);
        }
      }
    } else {
      SameHead(a, b);
      Tail(a);
      Tail(b);
      SortedUnique(a[1..], b[1..]);
      assert a == [a[0]] + a[1..];
      assert b == [b[0]] + b[1..];
    }
  }

  // ---------- the potential ----------

  /** Twice what a gap exceeds half of d by. */
  function Excess(gap: real, d: real): real {
    if 2.0 * gap > d then 2.0 * gap - d else 0.0
  }

  function Potential(rates: seq<real>, d: real): real {
    if |rates| < 2 then 0.0 else Excess(rates[1] - rates[0], d) + Potential(rates[1..], d)
  }

  function Between(rates: seq<real>, c: nat): seq<real>
    requires c + 1 < |rates|
  {
    rates[..c + 1] + [(rates[c + 1] + rates[c]) / 2.0] + rates[c + 1..]
  }

  /** Halving a gap wider than d takes exactly d from the potential. */
  lemma {:induction false} PotentialFalls(rates: seq<real>, c: nat, d: real)
    requires c + 1 < |rates| && d > 0.0 && rates[c + 1] - rates[c] > d
    ensures Potential(Between(rates, c), d) == Potential(rates, d) - d
  {
    var r := Between(rates, c);
    if c == 0 {
      assert r[1..][1..] == rates[1..];
    } else {
      assert r[1..] == Between(rates[1..], c - 1);
      PotentialFalls(rates[1..], c - 1, d);
    }
  }

  lemma {:induction false} PotentialBound(rates: seq<real>, d: real)
    requires Sorted(rates) && rates != [] && d > 0.0
    ensures 0.0 <= Potential(rates, d) <= Excess(rates[|rates| - 1] - rates[0], d)
  {
    if |rates| > 1 {
      PotentialBound(rates[1..], d);
    }
  }

  lemma BetweenSorted(rates: seq<real>, c: nat)
    requires Sorted(rates) && c + 1 < |rates|
    ensures Sorted(Between(rates, c))
    ensures Between(rates, c)[0] == rates[0] && Between(rates, c)[|rates|] == rates[|rates| - 1]
  {
    var m := (rates[c + 1] + rates[c]) / 2.0;
    assert rates[c] <= m <= rates[c + 1];
    var r := Between(rates, c);
    forall i, j | 0 <= i < j < |r| ensures r[i] <= r[j] {
      assert i <= c ==> r[i] <= rates[c];
      assert j > c + 1 ==> r[j] >= rates[c + 1];
    }
  }

  /** Sorting the results after the new one has been put at the end leaves its rate between
      its two neighbours. */
  lemma InsertSorted(rates: seq<real>, c: nat, rates': seq<real>)
    requires Sorted(rates) && c + 1 < |rates| && Sorted(rates')
    requires multiset(rates') == multiset(rates + [(rates[c + 1] + rates[c]) / 2.0])
    ensures rates' == Between(rates, c)
  {
    BetweenSorted(rates, c);
    assert rates == rates[..c + 1] + rates[c + 1..];
    SortedUnique(rates', Between(rates, c));
  }

  // ---------- the code ----------

  lemma RatesMore(results: seq<Result>, r: Result)
    ensures Rates(results + [r]) == Rates(results) + [r.rate]
  {
  }

  lemma InsertMultiset<T>(a: seq<T>, k: nat, x: T)
    requires k <= |a|
    ensures multiset(a[..k] + [x] + a[k..]) == multiset(a + [x])
  {
    assert a == a[..k] + a[k..];
  }

  lemma TakeMore<T>(a: seq<T>, i: nat)
    requires i < |a|
    ensures a[..i + 1] == a[..i] + [a[i]]
  {
  }

  /** One step of the sort. */
  lemma InsertStep(r: seq<Result>, k: nat, x: Result)
    requires Sorted(Rates(r)) && k <= |r|
    requires k > 0 ==> r[k - 1].rate <= x.rate
    requires forall j :: k <= j < |r| ==> r[j].rate > x.rate
    ensures var r' := r[..k] + [x] + r[k..];
      && Sorted(Rates(r')) && multiset(r') == multiset(r + [x]) && multiset(Rates(r')) == multiset(Rates(r) + [x.rate])
  {
    hide Sorted;
    var r' := r[..k] + [x] + r[k..];
    InsertMultiset(r, k, x);
    InsertMultiset(Rates(r), k, x.rate);
    assert Rates(r') == Rates(r)[..k] + [x.rate] + Rates(r)[k..];
    InsertKeepsSorted(Rates(r), k, x.rate);
  }

  lemma InsertKeepsSorted(a: seq<real>, k: nat, x: real)
    requires Sorted(a) && k <= |a| && (k > 0 ==> a[k - 1] <= x) && (forall j :: k <= j < |a| ==> a[j] > x)
    ensures Sorted(a[..k] + [x] + a[k..])
  {
    var b := a[..k] + [x] + a[k..];
    forall i, j | 0 <= i < j < |b| ensures b[i] <= b[j] {
      assert i < k ==> a[i] <= a[k - 1];
    }
  }

  /** r holds the first i results, sorted. */
  ghost predicate SortedPart(r: seq<Result>, results: seq<Result>, i: nat)
    requires i <= |results|
  {
    && Sorted(Rates(r))
    && multiset(r) == multiset(results[..i]) && multiset(Rates(r)) == multiset(Rates(results)[..i])
  }

  lemma SortedPartNone(results: seq<Result>)
    ensures SortedPart([], results, 0)
  {
  }

  lemma SortedPartMore(r: seq<Result>, results: seq<Result>, i: nat, k: nat)
    requires i < |results| && SortedPart(r, results, i) && k <= |r|
    requires k > 0 ==> r[k - 1].rate <= results[i].rate
    requires forall j :: k <= j < |r| ==> r[j].rate > results[i].rate
    ensures SortedPart(r[..k] + [results[i]] + r[k..], results, i + 1)
  {
    hide Sorted;
    InsertStep(r, k, results[i]);
    TakeMore(results, i);
    TakeMore(Rates(results), i);
  }

  lemma SortedPartAll(r: seq<Result>, results: seq<Result>)
    requires SortedPart(r, results, |results|)
    ensures multiset(r) == multiset(results) && Sorted(Rates(r)) && multiset(Rates(r)) == multiset(Rates(results))
  {
    assert results[..|results|] == results && Rates(results)[..|results|] == Rates(results);
  }

  /** table.sort with the comparison of rates. */
  method SortByRate(results: seq<Result>) returns (r: seq<Result>)
    ensures multiset(r) == multiset(results) && Sorted(Rates(r))
    ensures multiset(Rates(r)) == multiset(Rates(results))
  {
    hide SortedPart;
    hide Sorted;
    r := [];
    SortedPartNone(results);
    for i := 0 to |results|
      invariant SortedPart(r, results, i)
    {
      var k := Place(r, results[i].rate);
      SortedPartMore(r, results, i, k);
      r := r[..k] + [results[i]] + r[k..];
    }
    SortedPartAll(r, results);
  }

  /** Where a rate goes: behind the last that is not greater. */
  method Place(r: seq<Result>, rate: real) returns (k: nat)
    ensures k <= |r| && (k > 0 ==> r[k - 1].rate <= rate)
    ensures forall j :: k <= j < |r| ==> r[j].rate > rate
  {
    k := |r|;
    while k > 0 && r[k - 1].rate > rate
      invariant k <= |r| && forall j :: k <= j < |r| ==> r[j].rate > rate
    {
      k := k - 1;
    }
  }

  /** The pair the loop over the results chooses: the first with the greatest meaning. */
  ghost predicate Best(args: Args, log2: real -> real, results: seq<Result>, n: nat, chosen: Option<nat>, meaning: Num)
    requires args.most != 0.0
  {
    && (chosen.None? ==> meaning == Fin(0.0))
    && (chosen.Some? ==>
         && chosen.value < n && chosen.value + 1 < |results|
         && Eligible(args, log2, results[chosen.value], results[chosen.value + 1])
         && meaning == Meaning(args, log2, results[chosen.value], results[chosen.value + 1])
         && forall i :: 0 <= i < chosen.value && Wanted(args, results[i], results[i + 1]) ==>
              Meaning(args, log2, results[i], results[i + 1]) != meaning)
    && Greater(meaning, Fin(-1.0))
    && forall i :: 0 <= i < n && i + 1 < |results| && Wanted(args, results[i], results[i + 1]) ==>
         !Greater(Meaning(args, log2, results[i], results[i + 1]), meaning)
  }

  method Choose(args: Args, log2: real -> real, results: seq<Result>) returns (chosen: Option<nat>, meaning: Num)
    requires args.most != 0.0
    ensures Best(args, log2, results, |results|, chosen, meaning)
  {
    hide Best;
    hide Meaning;
    hide Wanted;
    chosen, meaning := None, Fin(0.0);
    BestStart(args, log2, results);
    for i := 0 to |results|
      invariant Best(args, log2, results, i, chosen, meaning)
    {
      if i + 1 >= |results| {
        BestEnd(args, log2, results, chosen, meaning);
        return;
      }
      BestStep(args, log2, results, i, chosen, meaning);
      var m := Meaning(args, log2, results[i], results[i + 1]);
      if Wanted(args, results[i], results[i + 1]) {
        if Greater(m, meaning) {
          meaning := m;
          chosen := Some(i);
        }
      }
    }
  }

  lemma BestStart(args: Args, log2: real -> real, results: seq<Result>)
    requires args.most != 0.0
    ensures Best(args, log2, results, 0, None, Fin(0.0))
  {
  }

  lemma BestEnd(args: Args, log2: real -> real, results: seq<Result>, chosen: Option<nat>, meaning: Num)
    requires args.most != 0.0 && results != [] && Best(args, log2, results, |results| - 1, chosen, meaning)
    ensures Best(args, log2, results, |results|, chosen, meaning)
  {
    hide Meaning;
    hide Wanted;
  }

  lemma GreaterOrder(x: Num, y: Num, z: Num)
    requires Greater(y, z)
    ensures Greater(x, y) ==> Greater(x, z)
    ensures !Greater(x, x)
  {
  }

  lemma BestStep(args: Args, log2: real -> real, results: seq<Result>, i: nat, chosen: Option<nat>, meaning: Num)
    requires args.most != 0.0 && i + 1 < |results| && Best(args, log2, results, i, chosen, meaning)
    ensures var m := Meaning(args, log2, results[i], results[i + 1]);
      if Wanted(args, results[i], results[i + 1]) && Greater(m, meaning)
      then Best(args, log2, results, i + 1, Some(i), m)
      else Best(args, log2, results, i + 1, chosen, meaning)
  {
    hide Meaning;
    hide Wanted;
    hide Greater;
    var m := Meaning(args, log2, results[i], results[i + 1]);
    if Wanted(args, results[i], results[i + 1]) && Greater(m, meaning) {
      BestPositive(chosen, meaning, m);
      GreaterOrder(m, meaning, Fin(-1.0));
      forall j | 0 <= j < i && Wanted(args, results[j], results[j + 1])
        ensures !Greater(Meaning(args, log2, results[j], results[j + 1]), m) {
        GreaterOrder(Meaning(args, log2, results[j], results[j + 1]), m, meaning);
      }
    }
  }

  /** What beats the best so far is above 0. */
  lemma BestPositive(chosen: Option<nat>, meaning: Num, m: Num)
    requires Greater(m, meaning) && (meaning == Fin(0.0) || Greater(meaning, Fin(0.0)))
    ensures Greater(m, Fin(0.0))
  {
    if meaning != Fin(0.0) {
      GreaterOrder(m, meaning, Fin(0.0));
    }
  }

  // ---------- runs ----------

  /** The smaller threshold. */
  function Threshold(args: Args): (d: real)
    ensures ArgsOk(args) ==> d > 0.0
  {
    if args.most < args.least then args.most else args.least
  }

  /** A chosen pair is wider apart than the smaller threshold. */
  lemma EligibleGap(args: Args, log2: real -> real, r1: Result, r2: Result)
    requires ArgsOk(args) && Eligible(args, log2, r1, r2)
    ensures r2.rate - r1.rate > Threshold(args)
  {
  }

  /** From one list of rates to another in n steps, each adding the midpoint of a pair of
      neighbours more than d apart. */
  ghost predicate Reaches(from: seq<real>, to: seq<real>, n: nat, d: real)
    decreases n
  {
    if n == 0 then to == from
    else exists mid, c: nat ::
        Reaches(from, mid, n - 1, d) && c + 1 < |mid| && mid[c + 1] - mid[c] > d && to == Between(mid, c)
  }

  lemma OneMore(from: seq<real>, mid: seq<real>, n: nat, d: real, c: nat)
    requires Reaches(from, mid, n, d) && c + 1 < |mid| && mid[c + 1] - mid[c] > d
    ensures Reaches(from, Between(mid, c), n + 1, d)
  {
  }

  /** n times d. */
  function Spent(n: nat, d: real): real {
    if n == 0 then 0.0 else Spent(n - 1, d) + d
  }

  lemma {:induction false} SpentIs(n: nat, d: real)
    ensures Spent(n, d) == n as real * d
  {
    if n > 0 {
      SpentIs(n - 1, d);
      assert n as real * d == (n - 1) as real * d + d;
    }
  }

  /** However the steps are chosen, each takes d from the potential, the rates stay sorted
      and the lowest and highest rate stay. */
  lemma {:induction false} RunPotential(from: seq<real>, to: seq<real>, n: nat, d: real)
    requires Reaches(from, to, n, d) && Sorted(from) && from != [] && d > 0.0
    ensures Sorted(to) && |to| == |from| + n
    ensures to[0] == from[0] && to[|to| - 1] == from[|from| - 1]
    ensures Potential(to, d) == Potential(from, d) - Spent(n, d)
    decreases n
  {
    hide Potential;
    hide Sorted;
    hide Between;
    if n == 0 {
      SpentNone(d);
    } else {
      var mid, c := LastStep(from, to, n, d);
      hide Reaches;
      hide Spent;
      RunPotential(from, mid, n - 1, d);
      StepPotential(mid, c, d);
      SpentMore(n, d);
    }
  }

  lemma LastStep(from: seq<real>, to: seq<real>, n: nat, d: real) returns (mid: seq<real>, c: nat)
    requires Reaches(from, to, n, d) && n > 0
    ensures Reaches(from, mid, n - 1, d) && c + 1 < |mid| && mid[c + 1] - mid[c] > d && to == Between(mid, c)
  {
    var mid', c': nat :|
      Reaches(from, mid', n - 1, d) && c' + 1 < |mid'| && mid'[c' + 1] - mid'[c'] > d && to == Between(mid', c');
    mid, c := mid', c';
  }

  lemma SpentNone(d: real)
    ensures Spent(0, d) == 0.0
  {
  }

  lemma SpentMore(n: nat, d: real)
    requires n > 0
    ensures Spent(n, d) == Spent(n - 1, d) + d
  {
  }

  lemma StepPotential(mid: seq<real>, c: nat, d: real)
    requires Sorted(mid) && c + 1 < |mid| && mid[c + 1] - mid[c] > d && d > 0.0
    ensures var to := Between(mid, c);
      && Sorted(to) && |to| == |mid| + 1 && to[0] == mid[0] && to[|to| - 1] == mid[|mid| - 1]
      && Potential(to, d) == Potential(mid, d) - d
  {
    BetweenSorted(mid, c);
    PotentialFalls(mid, c, d);
  }

  /** So there are fewer steps than twice the span over the threshold. */
  lemma RunBound(from: seq<real>, to: seq<real>, n: nat, d: real)
    requires Reaches(from, to, n, d) && Sorted(from) && from != [] && d > 0.0
    ensures Spent(n, d) <= Excess(from[|from| - 1] - from[0], d)
    ensures from[|from| - 1] > from[0] ==> (n as real) < 2.0 * (from[|from| - 1] - from[0]) / d
  {
    hide Reaches;
    hide Sorted;
    hide Potential;
    hide Spent;
    RunPotential(from, to, n, d);
    PotentialBound(from, d);
    PotentialBound(to, d);
    var span := from[|from| - 1] - from[0];
    SpentIs(n, d);
    if span > 0.0 {
      Quotient(n as real, 2.0 * span, d);
    }
  }

  lemma Quotient(x: real, y: real, d: real)
    requires d > 0.0 && x * d < y
    ensures x < y / d
  {
    assert x * d / d == x;
  }

  /** A whole number below a bound is at most the bound's floor. */
  function Most(span: real, d: real): int
    requires d > 0.0
  {
    if span > 0.0 then (2.0 * span / d).Floor else 0
  }

  lemma {:induction false} SpentPositive(n: nat, d: real)
    requires d > 0.0
    ensures n > 0 ==> Spent(n, d) > 0.0
  {
    if n > 0 {
      SpentPositive(n - 1, d);
    }
  }

  lemma AtMost(from: seq<real>, to: seq<real>, n: nat, d: real)
    requires Reaches(from, to, n, d) && Sorted(from) && from != [] && d > 0.0
    ensures n <= Most(from[|from| - 1] - from[0], d)
  {
    RunBound(from, to, n, d);
    SpentPositive(n, d);
  }

  /** The link rate, half of it and 100, measured first, in order. */
  ghost predicate Start(from: seq<Result>, link: real, drops: nat -> Num) {
    && |from| == 3 && Sorted(Rates(from))
    && multiset(from) == multiset{Result(link, drops(0)), Result(link / 2.0, drops(1)), Result(100.0, drops(2))}
  }

  /** One turn of the loop: the best pair is chosen and the rate between measured. */
  ghost predicate Turn(args: Args, log2: real -> real, mid: seq<Result>, c: nat, dropRate: Num, to: seq<Result>)
    requires args.most != 0.0
  {
    && c + 1 < |mid|
    && Best(args, log2, mid, |mid|, Some(c), Meaning(args, log2, mid[c], mid[c + 1]))
    && Rates(to) == Between(Rates(mid), c)
    && multiset(to) == multiset(mid + [Result((mid[c + 1].rate + mid[c].rate) / 2.0, dropRate)])
  }

  /** n turns of the loop. */
  ghost predicate Loops(args: Args, log2: real -> real, drops: nat -> Num, from: seq<Result>, to: seq<Result>, n: nat)
    requires args.most != 0.0
    decreases n
  {
    if n == 0 then to == from
    else
      var dropRate := drops(2 + n);
      exists mid, c: nat :: Loops(args, log2, drops, from, mid, n - 1) && Turn(args, log2, mid, c, dropRate, to)
  }

  ghost predicate Done(args: Args, log2: real -> real, results: seq<Result>)
    requires args.most != 0.0
  {
    forall i :: 0 <= i && i + 1 < |results| ==> !Eligible(args, log2, results[i], results[i + 1])
  }

  /** The loop of master. drops gives the drop rate each measurement finds, running the
      answers of mg.running. */
  method Master(options: Options, log2: real -> real, link: real, drops: nat -> Num, running: nat -> bool)
    returns (results: seq<Result>, added: nat, finished: bool, args: Args, ghost from: seq<Result>)
    requires options.maxRateInterval > 0.0 && options.minRateInterval > 0.0 && link > 0.0
    ensures ArgsOk(args) && args.target == options.target
    ensures args.most == options.maxRateInterval * link / 100.0 && args.least == options.minRateInterval * link / 100.0
    ensures multiset(from) == multiset{Result(link, drops(0)), Result(link / 2.0, drops(1)), Result(100.0, drops(2))}
    ensures Start(from, link, drops) && Loops(args, log2, drops, from, results, added)
    ensures Reaches(Rates(from), Rates(results), added, Threshold(args)) && Sorted(Rates(results))
    ensures finished || !running(added)
    ensures finished ==> Done(args, log2, results)
  {
    hide Reaches;
    hide Loops;
    hide Turn;
    hide Best;
    hide Between;
    hide Sorted;
    hide Meaning;
    hide Wanted;
    hide Most;
    hide Eligible;
    hide Threshold;
    hide Start;
    hide Done;
    hide Rates;
    args := ArgsOf(options, link);
    Percents(options.maxRateInterval, link);
    Percents(options.minRateInterval, link);
    hide ArgsOf;
    results := FirstMeasures(link, drops);
    added, finished := 0, false;
    from := results;
    ghost var d, r := Threshold(args), Rates(from);
    NoStep(r, d);
    NoLoop(args, log2, drops, from);
    AtMost(r, r, 0, d);
    while running(added)
      invariant |r| == 3 && Sorted(r) && Sorted(Rates(results)) && Reaches(r, Rates(results), added, d)
      invariant Loops(args, log2, drops, from, results, added)
      invariant added <= Most(r[2] - r[0], d)
      decreases Most(r[2] - r[0], d) - added
    {
      var chosen, meaning := Choose(args, log2, results);
      if chosen.None? {
        BestNone(args, log2, results, meaning);
        finished := true;
        return;
      }
      var c: nat := chosen.value;
      BestSome(args, log2, results, c, meaning);
      GapOfRates(results, c);
      ghost var rates, mid := Rates(results), results;
      results := Measure(results, c, drops(3 + added));
      OneMore(r, rates, added, d, c);
      OneTurn(args, log2, drops, from, mid, c, results, added);
      added := added + 1;
      AtMost(r, Rates(results), added, d);
    }
  }

  lemma Percents(interval: real, link: real)
    requires interval > 0.0 && link > 0.0
    ensures (interval * link) / 100.0 > 0.0
  {
    assert interval * link > 0.0;
  }

  lemma NoLoop(args: Args, log2: real -> real, drops: nat -> Num, from: seq<Result>)
    requires args.most != 0.0
    ensures Loops(args, log2, drops, from, from, 0)
  {
  }

  lemma OneTurn(args: Args, log2: real -> real, drops: nat -> Num, from: seq<Result>, mid: seq<Result>, c: nat,
                to: seq<Result>, n: nat)
    requires args.most != 0.0 && Loops(args, log2, drops, from, mid, n) && c + 1 < |mid|
    requires Best(args, log2, mid, |mid|, Some(c), Meaning(args, log2, mid[c], mid[c + 1]))
    requires Rates(to) == Between(Rates(mid), c)
    requires multiset(to) == multiset(mid + [Result((mid[c + 1].rate + mid[c].rate) / 2.0, drops(3 + n))])
    ensures Loops(args, log2, drops, from, to, n + 1)
  {
    hide Best;
    hide Meaning;
    assert Turn(args, log2, mid, c, drops(2 + (n + 1)), to);
    hide Turn;
  }

  lemma GapOfRates(results: seq<Result>, c: nat)
    requires c + 1 < |results|
    ensures Rates(results)[c + 1] - Rates(results)[c] == results[c + 1].rate - results[c].rate
  {
  }

  /** The link rate, half of it and 100. */
  method FirstMeasures(link: real, drops: nat -> Num) returns (results: seq<Result>)
    ensures Start(results, link, drops) && |Rates(results)| == 3 && Sorted(Rates(results))
    ensures multiset(results) ==
            multiset{Result(link, drops(0)), Result(link / 2.0, drops(1)), Result(100.0, drops(2))}
  {
    results := [Result(link, drops(0)), Result(link / 2.0, drops(1)), Result(100.0, drops(2))];
    results := SortByRate(results);
    assert |multiset(results)| == 3;
  }

  /** The measurement between the chosen pair. */
  method Measure(results: seq<Result>, c: nat, dropRate: Num) returns (r: seq<Result>)
    requires Sorted(Rates(results)) && c + 1 < |results|
    ensures Sorted(Rates(r)) && Rates(r) == Between(Rates(results), c)
    ensures multiset(r) == multiset(results + [Result((results[c + 1].rate + results[c].rate) / 2.0, dropRate)])
  {
    hide Sorted;
    hide Between;
    var nextRate := (results[c + 1].rate + results[c].rate) / 2.0;
    var measured := Result(nextRate, dropRate);
    RatesMore(results, measured);
    r := SortByRate(results + [measured]);
    ghost var rates := Rates(results);
    assert rates[c] == results[c].rate && rates[c + 1] == results[c + 1].rate;
    InsertSorted(rates, c, Rates(r));
  }

  lemma NoStep(from: seq<real>, d: real)
    ensures Reaches(from, from, 0, d)
  {
  }

  lemma BestNone(args: Args, log2: real -> real, results: seq<Result>, meaning: Num)
    requires args.most != 0.0 && Best(args, log2, results, |results|, None, meaning)
    ensures Done(args, log2, results)
  {
  }

  lemma BestSome(args: Args, log2: real -> real, results: seq<Result>, c: nat, meaning: Num)
    requires ArgsOk(args) && Best(args, log2, results, |results|, Some(c), meaning)
    ensures c + 1 < |results| && results[c + 1].rate - results[c].rate > Threshold(args)
    ensures Best(args, log2, results, |results|, Some(c), Meaning(args, log2, results[c], results[c + 1]))
  {
    EligibleGap(args, log2, results[c], results[c + 1]);
  }

  // ---------- which pairs come first ----------

  /** How many times the greater of two drop rates is the smaller, each raised a little. */
  function Steepness(p: real, q: real): (s: real)
    requires p >= 0.0 && q >= 0.0
  {
    if p > q then (p + 0.00000001) / (q + 0.00000001) else (q + 0.00000001) / (p + 0.00000001)
  }

  /** What a pair is worth and when it may be split, for drop rates that are measured. */
  lemma MeaningIs(args: Args, log2: real -> real, r1: Result, r2: Result)
    requires ArgsOk(args) && args.target > 0.0 && Measured(r1) && Measured(r2)
    ensures var gap, steep := r2.rate - r1.rate, Steepness(r1.dropRate.value, r2.dropRate.value);
      && steep >= 1.0
      && Meaning(args, log2, r1, r2) == Fin(log2(steep / args.target) + gap / args.most)
      && (Wanted(args, r1, r2) <==> gap > args.most || (steep > args.target && gap > args.least))
      && (Eligible(args, log2, r1, r2) <==> Wanted(args, r1, r2) && log2(steep / args.target) + gap / args.most > 0.0)
  {
    RatioAtLeastOne(r1, r2);
    assert DropRatio(r1, r2) == Fin(Steepness(r1.dropRate.value, r2.dropRate.value));
    hide DropRatio;
    hide Steepness;
    QuotientAtLeast(DropRatio(r1, r2).value, args.target, 0.0);
    assert DropRatio(r1, r2).value / args.target > 0.0;
  }

  /** Of two pairs the better one: as steep and wider, or as wide and steeper. */
  lemma BetterPair(args: Args, log2: real -> real, a1: Result, a2: Result, b1: Result, b2: Result)
    requires ArgsOk(args) && IsLog2(log2) && args.target > 0.0
    requires Measured(a1) && Measured(a2) && Measured(b1) && Measured(b2)
    ensures var s := Steepness(a1.dropRate.value, a2.dropRate.value);
      var s' := Steepness(b1.dropRate.value, b2.dropRate.value);
      var gap, gap' := a2.rate - a1.rate, b2.rate - b1.rate;
      (s == s' && gap > gap') || (s > s' && gap == gap') ==>
        Greater(Meaning(args, log2, a1, a2), Meaning(args, log2, b1, b2))
  {
    MeaningIs(args, log2, a1, a2);
    MeaningIs(args, log2, b1, b2);
    hide Meaning;
    hide Wanted;
    hide Eligible;
    var s, s' := Steepness(a1.dropRate.value, a2.dropRate.value), Steepness(b1.dropRate.value, b2.dropRate.value);
    hide Steepness;
    QuotientLess(b2.rate - b1.rate, a2.rate - a1.rate, args.most);
    QuotientLess(s', s, args.target);
    QuotientLess(0.0, s', args.target);
  }

  lemma QuotientLess(a: real, b: real, c: real)
    requires c > 0.0
    ensures a < b ==> a / c < b / c
    ensures 0.0 / c == 0.0
  {
  }

  /** So of the pairs that the thresholds ask to split the loop takes the widest of equally
      steep ones, and the steepest of equally wide ones. */
  lemma WidestFirst(args: Args, log2: real -> real, results: seq<Result>, c: nat, i: nat)
    requires ArgsOk(args) && IsLog2(log2) && args.target > 0.0
    requires c + 1 < |results| && i + 1 < |results| && forall r :: r in results ==> Measured(r)
    requires Best(args, log2, results, |results|, Some(c), Meaning(args, log2, results[c], results[c + 1]))
    requires Wanted(args, results[i], results[i + 1])
    ensures Measured(results[i]) && Measured(results[i + 1]) && Measured(results[c]) && Measured(results[c + 1])
    ensures var s := Steepness(results[i].dropRate.value, results[i + 1].dropRate.value);
      var s' := Steepness(results[c].dropRate.value, results[c + 1].dropRate.value);
      var gap, gap' := results[i + 1].rate - results[i].rate, results[c + 1].rate - results[c].rate;
      && (s == s' ==> gap <= gap')
      && (gap == gap' ==> s <= s')
  {
    hide Meaning;
    hide Wanted;
    assert results[i] in results && results[i + 1] in results && results[c] in results && results[c + 1] in results;
    BetterPair(args, log2, results[i], results[i + 1], results[c], results[c + 1]);
    hide Steepness;
  }

  // ---------- what the result is worth ----------

  /** What is used of the logarithm. */
  ghost predicate IsLog2(log2: real -> real) {
    && (forall x, y :: 0.0 < x < y ==> log2(x) < log2(y))
    && log2(1.0) == 0.0 && log2(0.5) == -1.0
  }

  /** A drop rate of a run in which something was sent and no more was received. */
  predicate Measured(r: Result) {
    r.dropRate.Fin? && r.dropRate.value >= 0.0
  }

  lemma RatioAtLeastOne(r1: Result, r2: Result)
    requires Measured(r1) && Measured(r2)
    ensures DropRatio(r1, r2).Fin? && DropRatio(r1, r2).value >= 1.0
  {
    var a, b := r1.dropRate.value + EPS, r2.dropRate.value + EPS;
    if a > b {
      QuotientAtLeast(a, b, 1.0);
    } else {
      QuotientAtLeast(b, a, 1.0);
    }
  }

  lemma QuotientAtLeast(a: real, b: real, c: real)
    requires b > 0.0 && a >= c * b
    ensures a / b >= c
    ensures a > c * b ==> a / b > c
  {
    assert c * b / b == c;
  }

  lemma WantedIsEligible(args: Args, log2: real -> real, r1: Result, r2: Result)
    requires ArgsOk(args) && IsLog2(log2) && 0.0 < args.target <= 2.0
    requires Measured(r1) && Measured(r2) && Wanted(args, r1, r2)
    ensures Eligible(args, log2, r1, r2)
  {
    RatioAtLeastOne(r1, r2);
    assert forall x :: x > 1.0 ==> log2(x) > 0.0;
    assert forall x :: x >= 0.5 ==> log2(x) >= -1.0;
    hide DropRatio;
    var ratio, gap := DropRatio(r1, r2).value, r2.rate - r1.rate;
    QuotientAtLeast(ratio, args.target, 0.5);
    if gap > args.most {
      QuotientAtLeast(gap, args.most, 1.0);
    } else {
      QuotientAtLeast(ratio, args.target, 1.0);
      QuotientAtLeast(gap, args.most, 0.0);
    }
  }

  /** For pairs on their own: each pair that the thresholds ask to split is eligible, whatever
      its drop rates, exactly when the target ratio is at most 2. */
  lemma TargetExact(args: Args, log2: real -> real)
    requires ArgsOk(args) && IsLog2(log2) && args.target > 0.0
    ensures (forall r1, r2 :: Measured(r1) && Measured(r2) && Wanted(args, r1, r2) ==> Eligible(args, log2, r1, r2))
            <==> args.target <= 2.0
  {
    if args.target <= 2.0 {
      forall r1, r2 | Measured(r1) && Measured(r2) && Wanted(args, r1, r2) ensures Eligible(args, log2, r1, r2) {
        WantedIsEligible(args, log2, r1, r2);
      }
    } else {
      var x := 1.0 / args.target;
      assert x * args.target == 1.0;
      assert 0.0 < x < 0.5 && log2(x) < log2(0.5);
      var g := -log2(x);
      assert g > 1.0;
      var r1, r2 := Result(0.0, Fin(0.0)), Result(g * args.most, Fin(0.0));
      assert DropRatio(r1, r2) == Fin(1.0);
      assert g * args.most / args.most == g;
      assert g * args.most > args.most by {
        assert g * args.most == args.most + (g - 1.0) * args.most;
      }
      assert Wanted(args, r1, r2) && Meaning(args, log2, r1, r2) == Fin(0.0);
    }
  }

  /** A gap halved k times. */
  function Halved(gap: real, k: nat): real {
    if k == 0 then gap else Halved(gap, k - 1) / 2.0
  }

  /** Halving one of the first gaps comes upon a gap above maxRateInterval that equal drop
      rates keep from being split. */
  ghost predicate Sticks(args: Args, log2: real -> real, from: seq<real>)
    requires args.most != 0.0 && args.target != 0.0
  {
    exists i: nat, k: nat :: i + 1 < |from| && StuckAt(args, log2, GapAt(from, i), k)
  }

  ghost predicate StuckAt(args: Args, log2: real -> real, gap: real, k: nat)
    requires args.most != 0.0 && args.target != 0.0
  {
    Halved(gap, k) > args.most && Halved(gap, k) / args.most + log2(1.0 / args.target) <= 0.0
  }

  /** Neighbouring rates are at most maxRateInterval apart. */
  ghost predicate Close(args: Args, results: seq<Result>) {
    forall i :: 0 <= i && i + 1 < |results| ==> results[i + 1].rate - results[i].rate <= args.most
  }

  ghost predicate HalvedGap(from: seq<real>, gap: real) {
    exists i: nat, k: nat :: i + 1 < |from| && gap == Halved(GapAt(from, i), k)
  }

  function GapAt(rates: seq<real>, i: nat): real
    requires i + 1 < |rates|
  {
    rates[i + 1] - rates[i]
  }

  /** The gaps after a midpoint is added. */
  lemma BetweenGaps(rates: seq<real>, c: nat, i: nat)
    requires c + 1 < |rates| && i < |rates|
    ensures GapAt(Between(rates, c), i) ==
            if i < c then GapAt(rates, i) else if i <= c + 1 then GapAt(rates, c) / 2.0 else GapAt(rates, i - 1)
  {
  }

  lemma BetweenLength(rates: seq<real>, c: nat)
    requires c + 1 < |rates|
    ensures |Between(rates, c)| == |rates| + 1
  {
  }

  lemma HalvedMore(from: seq<real>, gap: real)
    requires HalvedGap(from, gap)
    ensures HalvedGap(from, gap / 2.0)
  {
    var i: nat, k: nat :| i + 1 < |from| && gap == Halved(GapAt(from, i), k);
    assert Halved(GapAt(from, i), k + 1) == gap / 2.0;
  }

  /** Every gap is one of the first gaps, halved some times. */
  lemma {:induction false} GapsAreHalved(from: seq<real>, to: seq<real>, n: nat, d: real, i: nat)
    requires Reaches(from, to, n, d) && i + 1 < |to|
    ensures HalvedGap(from, GapAt(to, i))
    decreases n
  {
    hide Between;
    hide GapAt;
    if n == 0 {
      assert GapAt(to, i) == Halved(GapAt(from, i), 0);
    } else {
      var mid, c := LastStep(from, to, n, d);
      hide Reaches;
      BetweenLength(mid, c);
      BetweenGaps(mid, c, i);
      var j := if i < c then i else if i <= c + 1 then c else i - 1;
      GapsAreHalved(from, mid, n - 1, d, j);
      hide HalvedGap;
      HalvedMore(from, GapAt(mid, j));
    }
  }

  ghost predicate AllMeasured(drops: nat -> Num) {
    forall k :: drops(k).Fin? && drops(k).value >= 0.0
  }

  /** Every drop rate is one of those measured. */
  ghost predicate DropsFrom(results: seq<Result>, drops: nat -> Num) {
    forall r :: r in results ==> exists k :: r.dropRate == drops(k)
  }

  lemma StartDrops(from: seq<Result>, link: real, drops: nat -> Num)
    requires Start(from, link, drops)
    ensures DropsFrom(from, drops)
  {
    hide Sorted;
    forall r | r in from ensures exists k :: r.dropRate == drops(k) {
      assert r in multiset(from);
    }
  }

  lemma {:induction false} LoopDrops(args: Args, log2: real -> real, drops: nat -> Num, from: seq<Result>,
                                     to: seq<Result>, n: nat)
    requires args.most != 0.0 && Loops(args, log2, drops, from, to, n) && DropsFrom(from, drops)
    ensures DropsFrom(to, drops)
    decreases n
  {
    hide Turn;
    if n > 0 {
      var mid, c := LastTurn(args, log2, drops, from, to, n);
      hide Loops;
      LoopDrops(args, log2, drops, from, mid, n - 1);
      TurnDrops(args, log2, mid, c, drops(2 + n), to);
      forall r | r in to ensures exists k :: r.dropRate == drops(k) {
        assert r !in mid ==> r.dropRate == drops(2 + n);
      }
    }
  }

  lemma TurnDrops(args: Args, log2: real -> real, mid: seq<Result>, c: nat, dropRate: Num, to: seq<Result>)
    requires args.most != 0.0 && Turn(args, log2, mid, c, dropRate, to)
    ensures forall r :: r in to ==> r in mid || r.dropRate == dropRate
  {
    hide Best;
    forall r | r in to ensures r in mid || r.dropRate == dropRate {
      assert r in multiset(to);
      assert r in mid + [Result((mid[c + 1].rate + mid[c].rate) / 2.0, dropRate)];
    }
  }

  lemma LastTurn(args: Args, log2: real -> real, drops: nat -> Num, from: seq<Result>, to: seq<Result>, n: nat)
    returns (mid: seq<Result>, c: nat)
    requires args.most != 0.0 && Loops(args, log2, drops, from, to, n) && n > 0
    ensures Loops(args, log2, drops, from, mid, n - 1) && Turn(args, log2, mid, c, drops(2 + n), to)
  {
    hide Turn;
    var mid', c': nat :| Loops(args, log2, drops, from, mid', n - 1) && Turn(args, log2, mid', c', drops(2 + n), to);
    mid, c := mid', c';
  }

  /** The loop's turns are steps of the potential argument. */
  lemma {:induction false} LoopReaches(args: Args, log2: real -> real, drops: nat -> Num, from: seq<Result>,
                                       to: seq<Result>, n: nat)
    requires ArgsOk(args) && Loops(args, log2, drops, from, to, n)
    ensures Reaches(Rates(from), Rates(to), n, Threshold(args))
    decreases n
  {
    hide Turn;
    hide Between;
    hide Threshold;
    hide Rates;
    if n == 0 {
      NoStep(Rates(from), Threshold(args));
    } else {
      var mid, c := LastTurn(args, log2, drops, from, to, n);
      hide Loops;
      hide Reaches;
      LoopReaches(args, log2, drops, from, mid, n - 1);
      TurnStep(args, log2, mid, c, drops(2 + n), to);
      OneMore(Rates(from), Rates(mid), n - 1, Threshold(args), c);
    }
  }

  lemma TurnStep(args: Args, log2: real -> real, mid: seq<Result>, c: nat, dropRate: Num, to: seq<Result>)
    requires ArgsOk(args) && Turn(args, log2, mid, c, dropRate, to)
    ensures c + 1 < |mid| && Eligible(args, log2, mid[c], mid[c + 1])
    ensures Rates(mid)[c + 1] - Rates(mid)[c] > Threshold(args)
    ensures Rates(to) == Between(Rates(mid), c)
  {
    hide Between;
    BestSome(args, log2, mid, c, Meaning(args, log2, mid[c], mid[c + 1]));
    GapOfRates(mid, c);
  }

  /** A pair above maxRateInterval that is left at the end is one that equal drop rates would
      leave too: less similar ones only raise its meaning. */
  lemma LeftIsStuck(args: Args, log2: real -> real, r1: Result, r2: Result)
    requires ArgsOk(args) && IsLog2(log2) && args.target > 0.0 && Measured(r1) && Measured(r2)
    requires r2.rate - r1.rate > args.most && !Eligible(args, log2, r1, r2)
    ensures (r2.rate - r1.rate) / args.most + log2(1.0 / args.target) <= 0.0
  {
    RatioAtLeastOne(r1, r2);
    hide DropRatio;
    var ratio := DropRatio(r1, r2).value;
    QuotientAtLeast(1.0, args.target, 0.0);
    var least := 1.0 / args.target;
    assert least * args.target == 1.0;
    QuotientAtLeast(ratio, args.target, least);
    assert least > 0.0;
    assert log2(ratio / args.target) >= log2(least);
  }

  /** With equal drop rates a pair is eligible only while the logarithm does not outweigh it. */
  lemma EqualDrops(args: Args, log2: real -> real, r1: Result, r2: Result)
    requires ArgsOk(args) && args.target > 0.0 && Measured(r1) && r2.dropRate == r1.dropRate
    requires Eligible(args, log2, r1, r2)
    ensures (r2.rate - r1.rate) / args.most + log2(1.0 / args.target) > 0.0
  {
    assert DropRatio(r1, r2) == Fin(1.0);
    assert (1.0 / args.target) * args.target == 1.0;
    assert 1.0 / args.target > 0.0;
  }

  lemma {:induction false} HalvedSign(gap: real, k: nat)
    ensures Halved(gap, k) > 0.0 <==> gap > 0.0
  {
    if k > 0 {
      HalvedSign(gap, k - 1);
    }
  }

  lemma {:induction false} HalvedLess(gap: real, j: nat, k: nat)
    requires j <= k && gap > 0.0
    ensures Halved(gap, j) >= Halved(gap, k)
    decreases k
  {
    if j < k {
      HalvedLess(gap, j, k - 1);
      HalvedSign(gap, k - 1);
    }
  }

  /** Gap i is a first gap not yet halved down to the one that sticks. */
  ghost predicate Holding(args: Args, log2: real -> real, results: seq<Result>, gap: real, k: nat, i: nat, j: nat)
    requires args.most != 0.0 && args.target != 0.0
  {
    && i + 1 < |results| && j <= k && StuckAt(args, log2, gap, k)
    && GapAt(Rates(results), i) == Halved(gap, j)
  }

  lemma HoldingGap(args: Args, log2: real -> real, gap: real, k: nat, j: nat)
    requires ArgsOk(args) && args.target > 0.0 && StuckAt(args, log2, gap, k) && j <= k
    ensures Halved(gap, j) > args.most
    ensures Halved(gap, j) / args.most + log2(1.0 / args.target) > 0.0 ==> j < k
  {
    HalvedSign(gap, k);
    HalvedLess(gap, j, k);
  }

  /** Equal drop rates keep such a gap from being split too far. */
  lemma TurnHolds(args: Args, log2: real -> real, mid: seq<Result>, c: nat, dropRate: Num, to: seq<Result>,
                  gap: real, k: nat, i: nat, j: nat) returns (i': nat, j': nat)
    requires ArgsOk(args) && args.target > 0.0 && Turn(args, log2, mid, c, dropRate, to)
    requires forall r :: r in mid ==> Measured(r) && r.dropRate == dropRate
    requires Holding(args, log2, mid, gap, k, i, j)
    ensures Holding(args, log2, to, gap, k, i', j')
  {
    TurnStep(args, log2, mid, c, dropRate, to);
    HoldingGap(args, log2, gap, k, j);
    BetweenLength(Rates(mid), c);
    i', j' := if i <= c then i else i + 1, if i == c then j + 1 else j;
    if i == c {
      assert mid[c] in mid && mid[c + 1] in mid;
      EqualDrops(args, log2, mid[c], mid[c + 1]);
      GapOfRates(mid, c);
    }
    hide Between;
    hide StuckAt;
    hide Turn;
    BetweenGaps(Rates(mid), c, i');
  }

  /** Every measurement found the same drop rate. */
  ghost predicate SameDrops(drops: nat -> Num) {
    forall k :: drops(k) == drops(0)
  }

  lemma {:induction false} LoopHolds(args: Args, log2: real -> real, drops: nat -> Num, from: seq<Result>,
                                     to: seq<Result>, n: nat, gap: real, k: nat, i: nat) returns (i': nat, j': nat)
    requires ArgsOk(args) && args.target > 0.0 && Loops(args, log2, drops, from, to, n)
    requires AllMeasured(drops) && SameDrops(drops) && DropsFrom(from, drops)
    requires Holding(args, log2, from, gap, k, i, 0)
    ensures Holding(args, log2, to, gap, k, i', j')
    decreases n
  {
    hide Turn;
    hide Holding;
    if n == 0 {
      i', j' := i, 0;
    } else {
      var mid, c := LastTurn(args, log2, drops, from, to, n);
      LoopDrops(args, log2, drops, from, mid, n - 1);
      i', j' := LoopHolds(args, log2, drops, from, mid, n - 1, gap, k, i);
      i', j' := TurnHolds(args, log2, mid, c, drops(2 + n), to, gap, k, i', j');
    }
  }

  /** Neighbours whose drop rates differ by more than the target ratio are at most
      minRateInterval apart. */
  ghost predicate SteepClose(args: Args, results: seq<Result>) {
    forall i :: 0 <= i && i + 1 < |results| && Greater(DropRatio(results[i], results[i + 1]), Fin(args.target)) ==>
      results[i + 1].rate - results[i].rate <= args.least
  }

  /** Such a pair is eligible as long as it is further apart. */
  lemma SteepIsEligible(args: Args, log2: real -> real, r1: Result, r2: Result)
    requires ArgsOk(args) && IsLog2(log2) && args.target > 0.0 && Measured(r1) && Measured(r2)
    requires Greater(DropRatio(r1, r2), Fin(args.target)) && r2.rate - r1.rate > args.least
    ensures Eligible(args, log2, r1, r2)
  {
    RatioAtLeastOne(r1, r2);
    assert forall x :: x > 1.0 ==> log2(x) > 0.0;
    hide DropRatio;
    QuotientAtLeast(DropRatio(r1, r2).value, args.target, 1.0);
    QuotientAtLeast(r2.rate - r1.rate, args.most, 0.0);
  }

  /** How close the rates end is decided before the first measurement. If no halving of a
      first gap sticks, neighbours end at most maxRateInterval apart whatever the drop rates;
      if one does, they do not whenever all drop rates are equal. Pairs with steeply different
      drop rates always end at most minRateInterval apart. */
  lemma GapsExact(args: Args, log2: real -> real, link: real, drops: nat -> Num, from: seq<Result>,
                  results: seq<Result>, n: nat)
    requires ArgsOk(args) && IsLog2(log2) && args.target > 0.0 && AllMeasured(drops)
    requires Start(from, link, drops) && Loops(args, log2, drops, from, results, n) && Done(args, log2, results)
    ensures !Sticks(args, log2, Rates(from)) ==> Close(args, results)
    ensures SameDrops(drops) ==> (Close(args, results) <==> !Sticks(args, log2, Rates(from)))
    ensures SteepClose(args, results)
  {
    StartDrops(from, link, drops);
    LoopDrops(args, log2, drops, from, results, n);
    AllSteepClose(args, log2, drops, results);
    hide SteepClose;
    LoopReaches(args, log2, drops, from, results, n);
    if !Sticks(args, log2, Rates(from)) {
      forall i | 0 <= i && i + 1 < |results| ensures results[i + 1].rate - results[i].rate <= args.most {
        NotStuckIsClose(args, log2, Rates(from), results, n, i, drops);
      }
    } else if SameDrops(drops) {
      StuckIsApart(args, log2, drops, from, results, n);
    }
  }

  lemma AllSteepClose(args: Args, log2: real -> real, drops: nat -> Num, results: seq<Result>)
    requires ArgsOk(args) && IsLog2(log2) && args.target > 0.0 && AllMeasured(drops) && DropsFrom(results, drops)
    requires Done(args, log2, results)
    ensures SteepClose(args, results)
  {
    hide Eligible;
    hide DropRatio;
    hide Greater;
    forall i | 0 <= i && i + 1 < |results| && Greater(DropRatio(results[i], results[i + 1]), Fin(args.target))
      ensures results[i + 1].rate - results[i].rate <= args.least {
      MeasuredAt(results, drops, i);
      MeasuredAt(results, drops, i + 1);
      if results[i + 1].rate - results[i].rate > args.least {
        SteepIsEligible(args, log2, results[i], results[i + 1]);
      }
    }
  }

  lemma NotStuckIsClose(args: Args, log2: real -> real, from: seq<real>, results: seq<Result>, n: nat, i: nat,
                        drops: nat -> Num)
    requires ArgsOk(args) && IsLog2(log2) && args.target > 0.0 && AllMeasured(drops) && DropsFrom(results, drops)
    requires Reaches(from, Rates(results), n, Threshold(args)) && Done(args, log2, results)
    requires !Sticks(args, log2, from) && i + 1 < |results|
    ensures results[i + 1].rate - results[i].rate <= args.most
  {
    GapsAreHalved(from, Rates(results), n, Threshold(args), i);
    hide Reaches;
    hide Threshold;
    GapOfRates(results, i);
    MeasuredAt(results, drops, i);
    MeasuredAt(results, drops, i + 1);
    hide DropsFrom;
    hide AllMeasured;
    hide Measured;
    hide IsLog2;
    hide Eligible;
    hide StuckAt;
    hide Rates;
    var j: nat, k: nat :| j + 1 < |from| && GapAt(Rates(results), i) == Halved(GapAt(from, j), k);
    NotStuckGap(args, log2, results[i], results[i + 1], GapAt(from, j), k);
  }

  lemma MeasuredAt(results: seq<Result>, drops: nat -> Num, i: nat)
    requires AllMeasured(drops) && DropsFrom(results, drops) && i < |results|
    ensures Measured(results[i])
  {
    assert results[i] in results;
  }

  lemma NotStuckGap(args: Args, log2: real -> real, r1: Result, r2: Result, gap: real, k: nat)
    requires ArgsOk(args) && IsLog2(log2) && args.target > 0.0 && Measured(r1) && Measured(r2)
    requires r2.rate - r1.rate == Halved(gap, k) && !StuckAt(args, log2, gap, k) && !Eligible(args, log2, r1, r2)
    ensures r2.rate - r1.rate <= args.most
  {
    hide Eligible;
    hide IsLog2;
    hide Halved;
    if r2.rate - r1.rate > args.most {
      LeftIsStuck(args, log2, r1, r2);
    }
  }

  lemma StuckIsApart(args: Args, log2: real -> real, drops: nat -> Num, from: seq<Result>, results: seq<Result>, n: nat)
    requires ArgsOk(args) && args.target > 0.0 && Loops(args, log2, drops, from, results, n)
    requires AllMeasured(drops) && SameDrops(drops) && DropsFrom(from, drops)
    requires Sticks(args, log2, Rates(from))
    ensures !Close(args, results)
  {
    var i: nat, k: nat :| i + 1 < |from| && StuckAt(args, log2, GapAt(Rates(from), i), k);
    var gap := GapAt(Rates(from), i);
    assert Holding(args, log2, from, gap, k, i, 0);
    var i', j' := LoopHolds(args, log2, drops, from, results, n, gap, k, i);
    HoldingGap(args, log2, gap, k, j');
    GapOfRates(results, i');
  }

  /** A target ratio of at most 2 never sticks. */
  lemma TwoNeverSticks(args: Args, log2: real -> real, from: seq<real>)
    requires ArgsOk(args) && IsLog2(log2) && 0.0 < args.target <= 2.0
    ensures !Sticks(args, log2, from)
  {
    assert (1.0 / args.target) * args.target == 1.0;
    assert 1.0 / args.target >= 0.5;
    assert log2(1.0 / args.target) >= -1.0;
    forall i: nat, k: nat | i + 1 < |from| ensures !StuckAt(args, log2, GapAt(from, i), k) {
      var gap := Halved(GapAt(from, i), k);
      if gap > args.most {
        QuotientAtLeast(gap, args.most, 1.0);
      }
    }
  }

  /** A target ratio of 4 on a link of 10000 with the default interval of 5 percent does: the
      gap of 5000 comes down to 625 and, at equal drop rates, stays there. */
  lemma FourSticks(log2: real -> real)
    requires log2(0.25) == -2.0
    ensures var args := ArgsOf(Options(5.0, 0.1, 4.0), 10000.0);
      args.most == 500.0 && args.least == 10.0 && Sticks(args, log2, [100.0, 5000.0, 10000.0])
  {
    var args := ArgsOf(Options(5.0, 0.1, 4.0), 10000.0);
    var from := [100.0, 5000.0, 10000.0];
    assert Halved(5000.0, 3) == 625.0;
    assert StuckAt(args, log2, GapAt(from, 1), 3);
  }
}
