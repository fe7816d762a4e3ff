/**
 * Question generation (generateQuestion in server/main.go): pick n distinct
 * dataset entries by drawing random indices and re-drawing while a drawn index
 * is already selected, then pick the correct answer among the chosen entries.
 *
 * The random source is a supplied sequence of raw draws; `r1.Intn(bound)` takes
 * the next draw reduced modulo the bound. The uuid of the question is a parameter.
 * A supply that runs out before the generator is done yields None.
 */
module Questions {
  import opened Wrappers
  import opened Protocol

  /** The generator's view of `r1.Intn(bound)`: a raw draw reduced into [0, bound). */
  function Intn(draw: nat, bound: nat): (r: nat)
    requires bound > 0
    ensures r < bound
  {
    draw % bound
  }

  /** The elements of a sequence, as the set the generator's `selected` map marks. */
  function Elems(s: seq<nat>): set<nat>
  {
    set x | x in s
  }

  /** No index is chosen twice. */
  predicate Distinct(s: seq<nat>)
  {
    forall a, b :: 0 <= a < b < |s| ==> s[a] != s[b]
  }

  /**
   * The position of the first draw at or after `pos` whose index is not yet
   * selected: where the retry loop stops. None when the supply runs out first.
   */
  function FirstFresh(draws: seq<nat>, pos: nat, bound: nat, selected: set<nat>): (r: Option<nat>)
    requires bound > 0 && pos <= |draws|
    decreases |draws| - pos
    ensures r.Some? ==> pos <= r.value < |draws| && Intn(draws[r.value], bound) !in selected
  {
    if pos == |draws| then None
    else if Intn(draws[pos], bound) !in selected then Some(pos)
    else FirstFresh(draws, pos + 1, bound, selected)
  }

  /**
   * FirstFresh skips exactly the draws of already-selected indices: every draw it
   * passes over is selected, and it fails only when every remaining draw is.
   */
  lemma {:induction false} FirstFreshSkipsSelected(draws: seq<nat>, pos: nat, bound: nat, selected: set<nat>)
    requires bound > 0 && pos <= |draws|
    decreases |draws| - pos
    ensures FirstFresh(draws, pos, bound, selected).Some? ==>
      forall j :: pos <= j < FirstFresh(draws, pos, bound, selected).value ==> Intn(draws[j], bound) in selected
    ensures FirstFresh(draws, pos, bound, selected).None? ==>
      forall j :: pos <= j < |draws| ==> Intn(draws[j], bound) in selected
  {
    if pos < |draws| && Intn(draws[pos], bound) in selected {
      FirstFreshSkipsSelected(draws, pos + 1, bound, selected);
    }
  }

  /**
   * The indices the outer loop has chosen after k iterations, with the position
   * of the next unused draw.
   */
  function Pick(draws: seq<nat>, bound: nat, k: nat): (r: Option<(seq<nat>, nat)>)
    requires bound > 0
    ensures r.Some? ==> |r.value.0| == k && k <= r.value.1 <= |draws|
  {
    if k == 0 then Some(([], 0))
    else
      match Pick(draws, bound, k - 1)
      case None => None
      case Some((chosen, pos)) =>
        match FirstFresh(draws, pos, bound, Elems(chosen))
        case None => None
        case Some(j) => Some((chosen + [Intn(draws[j], bound)], j + 1))
  }

  /** The chosen indices are pairwise distinct and in range: a fresh draw is never already selected. */
  lemma {:induction false} PickDistinct(draws: seq<nat>, bound: nat, k: nat)
    requires bound > 0 && Pick(draws, bound, k).Some?
    ensures Distinct(Pick(draws, bound, k).value.0)
    ensures forall i :: 0 <= i < k ==> Pick(draws, bound, k).value.0[i] < bound
  {
    if k > 0 {
      PickDistinct(draws, bound, k - 1);
      var (chosen, pos) := Pick(draws, bound, k - 1).value;
      var j := FirstFresh(draws, pos, bound, Elems(chosen)).value;
      var c := chosen + [Intn(draws[j], bound)];
      assert Pick(draws, bound, k).value.0 == c;
      assert c[k - 1] !in Elems(chosen);
      forall a, b | 0 <= a < b < |c| ensures c[a] != c[b] {
        if b == k - 1 {
          assert c[a] in Elems(chosen);
        }
      }
    }
  }

  /** Once the supply has run out it stays run out: a later iteration cannot succeed. */
  lemma {:induction false} PickExhaustedStays(draws: seq<nat>, bound: nat, k: nat, l: nat)
    requires bound > 0 && k <= l && Pick(draws, bound, k).None?
    ensures Pick(draws, bound, l).None?
    decreases l - k
  {
    if k < l {
      PickExhaustedStays(draws, bound, k + 1, l);
    }
  }

  /** One more iteration of the outer loop extends the chosen indices by the next fresh draw. */
  lemma PickStep(draws: seq<nat>, bound: nat, k: nat, chosen: seq<nat>, pos: nat, j: nat)
    requires bound > 0 && Pick(draws, bound, k) == Some((chosen, pos))
    requires FirstFresh(draws, pos, bound, Elems(chosen)) == Some(j)
    ensures Pick(draws, bound, k + 1) == Some((chosen + [Intn(draws[j], bound)], j + 1))
  {
  }

  /** An iteration whose retry loop runs out of draws ends the selection. */
  lemma PickStopsWhenExhausted(draws: seq<nat>, bound: nat, k: nat, chosen: seq<nat>, pos: nat)
    requires bound > 0 && Pick(draws, bound, k) == Some((chosen, pos))
    requires FirstFresh(draws, pos, bound, Elems(chosen)).None?
    ensures Pick(draws, bound, k + 1).None?
  {
  }

  /** Distinct indices make a set of the same size. */
  lemma {:induction false} DistinctElemsSize(s: seq<nat>)
    requires Distinct(s)
    ensures |Elems(s)| == |s|
  {
    if s != [] {
      var init := s[..|s| - 1];
      assert Distinct(init);
      DistinctElemsSize(init);
      assert Elems(s) == Elems(init) + {s[|s| - 1]};
      assert s[|s| - 1] !in Elems(init) by {
        forall a | 0 <= a < |init| ensures init[a] != s[|s| - 1] {
          assert s[a] != s[|s| - 1];
        }
      }
    }
  }

  /** The indices below a bound. */
  function Below(bound: nat): (r: set<nat>)
    ensures |r| == bound
    ensures forall x: nat :: x in r <==> x < bound
  {
    if bound == 0 then {}
    else
      var r := Below(bound - 1);
      assert bound - 1 !in r;
      r + {bound - 1}
  }

  /** A subset is no larger than its superset. */
  lemma {:induction false} SubsetSize(a: set<nat>, b: set<nat>)
    requires a <= b
    ensures |a| <= |b|
  {
    if a != {} {
      var x :| x in a;
      SubsetSize(a - {x}, b - {x});
    }
  }

  /**
   * More slots than entries can never all be filled with distinct indices: the
   * retry loop of the source then never ends, and here the draws run out.
   */
  lemma TooFewEntriesNeverFill(draws: seq<nat>, bound: nat, k: nat)
    requires 0 < bound < k
    ensures Pick(draws, bound, k).None?
  {
    if Pick(draws, bound, k).Some? {
      var chosen := Pick(draws, bound, k).value.0;
      PickDistinct(draws, bound, k);
      DistinctElemsSize(chosen);
      SubsetSize(Elems(chosen), Below(bound));
      assert false;
    }
  }

  /** A generated question with its correct answer. */
  datatype Generated = Generated(question: Question, answer: string)

  /**
   * There are n distinct in-range indices behind the question: the i-th option is
   * the capital of the i-th chosen entry, and the question asks about the country
   * whose capital is the answer, one of the chosen entries.
   */
  predicate DrawnFrom(capitals: seq<Country>, chosen: seq<nat>, g: Generated)
  {
    && Distinct(chosen)
    && (forall i :: 0 <= i < |chosen| ==> chosen[i] < |capitals|)
    && |g.question.options| == |chosen|
    && (forall i :: 0 <= i < |chosen| ==> g.question.options[i] == capitals[chosen[i]].capital)
    && (exists k :: 0 <= k < |chosen| && g.question.country == capitals[chosen[k]].name
                                      && g.answer == capitals[chosen[k]].capital)
  }

  /** The answer is always one of the options. */
  lemma AnswerIsAnOption(capitals: seq<Country>, chosen: seq<nat>, g: Generated)
    requires DrawnFrom(capitals, chosen, g)
    ensures g.answer in g.question.options
  {
    var k :| 0 <= k < |chosen| && g.question.country == capitals[chosen[k]].name
                               && g.answer == capitals[chosen[k]].capital;
    assert g.question.options[k] == g.answer;
  }

  /**
   * The retry loop of generateQuestion: draw an index, and re-draw while it is
   * already selected. Returns the fresh index and the position after its draw.
   */
  method DrawFresh(draws: seq<nat>, pos: nat, bound: nat, selected: set<nat>)
    returns (index: nat, next: nat, found: bool)
    requires bound > 0 && pos <= |draws|
    ensures found <==> FirstFresh(draws, pos, bound, selected).Some?
    ensures found ==> next == FirstFresh(draws, pos, bound, selected).value + 1
    ensures found ==> index == Intn(draws[next - 1], bound) && index !in selected
  {
    next := pos;
    if next == |draws| {
      return 0, next, false;
    }
    index := Intn(draws[next], bound);
    next := next + 1;
    while index in selected
      invariant pos < next <= |draws|
      invariant index == Intn(draws[next - 1], bound)
      invariant FirstFresh(draws, pos, bound, selected) == FirstFresh(draws, next - 1, bound, selected)
      decreases |draws| - next
    {
      if next == |draws| {
        return index, next, false;
      }
      index := Intn(draws[next], bound);
      next := next + 1;
    }
    found := true;
  }

  /** One slot of the selection: the entry goes to capitalsSet[i] and its capital to options[i]. */
  method Record(capitalsSet: array<Country>, options: array<string>, i: nat, entry: Country)
    requires i < capitalsSet.Length == options.Length
    modifies capitalsSet, options
    ensures capitalsSet[i] == entry && options[i] == entry.capital
    ensures forall j :: 0 <= j < capitalsSet.Length && j != i ==> capitalsSet[j] == old(capitalsSet[j])
    ensures forall j :: 0 <= j < options.Length && j != i ==> options[j] == old(options[j])
  {
    capitalsSet[i] := entry;
    options[i] := entry.capital;
  }

  /**
   * The selection loop of generateQuestion: for each of the n slots, draw a fresh
   * index and record its entry in capitalsSet and its capital in options.
   */
  method FillOptions(capitals: seq<Country>, draws: seq<nat>, capitalsSet: array<Country>, options: array<string>)
    returns (pos: nat, found: bool, ghost chosen: seq<nat>)
    requires 0 < capitalsSet.Length == options.Length && 0 < |capitals|
    modifies capitalsSet, options
    ensures found <==> Pick(draws, |capitals|, capitalsSet.Length).Some?
    ensures found ==> Pick(draws, |capitals|, capitalsSet.Length) == Some((chosen, pos))
    ensures found ==> |chosen| == capitalsSet.Length && forall j :: 0 <= j < |chosen| ==> chosen[j] < |capitals|
    ensures found ==> forall j :: 0 <= j < capitalsSet.Length ==> capitalsSet[j] == capitals[chosen[j]]
    ensures found ==> forall j :: 0 <= j < options.Length ==> options[j] == capitals[chosen[j]].capital
  {
    var n, m := capitalsSet.Length, |capitals|;
    var selected: set<nat> := {};
    chosen := [];
    pos := 0;
    var i := 0;
    while i < n
      invariant 0 <= i <= n && pos <= |draws|
      invariant Pick(draws, m, i) == Some((chosen, pos))
      invariant selected == Elems(chosen)
      invariant |chosen| == i && forall j :: 0 <= j < i ==> chosen[j] < m
      invariant forall j :: 0 <= j < i ==> capitalsSet[j] == capitals[chosen[j]]
      invariant forall j :: 0 <= j < i ==> options[j] == capitals[chosen[j]].capital
    {
      ghost var start := pos;
      var index, next, drawn := DrawFresh(draws, pos, m, selected);
      if !drawn {
        PickStopsWhenExhausted(draws, m, i, chosen, start);
        PickExhaustedStays(draws, m, i + 1, n);
        return pos, false, chosen;
      }
      pos := next;
      PickStep(draws, m, i, chosen, start, pos - 1);
      selected := selected + {index};
      ghost var prev := chosen;
      chosen := chosen + [index];
      assert forall j :: 0 <= j < i ==> chosen[j] == prev[j];
      Record(capitalsSet, options, i, capitals[index]);
      i := i + 1;
    }
    found := true;
  }

  /**
   * generateQuestion(n). The source needs n >= 1 and a non-empty capital list
   * (Intn panics on a zero bound). With n above the number of capitals the
   * retry loop never finds a fresh index; here the draws then run out.
   */
  method GenerateQuestion(capitals: seq<Country>, n: nat, draws: seq<nat>, id: string)
    returns (r: Option<Generated>)
    requires 0 < n && 0 < |capitals|
    ensures |capitals| < n ==> r.None?
    ensures r.None? <==> Pick(draws, |capitals|, n).None? || Pick(draws, |capitals|, n).value.1 == |draws|
    ensures r.Some? ==>
      var (chosen, pos) := Pick(draws, |capitals|, n).value;
      var k := Intn(draws[pos], n);
      && DrawnFrom(capitals, chosen, r.value)
      && r.value.question.id == id
      && r.value.question.country == capitals[chosen[k]].name
      && r.value.answer == capitals[chosen[k]].capital
      && r.value.answer in r.value.question.options
  {
    if |capitals| < n {
      TooFewEntriesNeverFill(draws, |capitals|, n);
    }
    var capitalsSet := new Country[n];
    var options := new string[n];
    var pos, found, chosen := FillOptions(capitals, draws, capitalsSet, options);
    if !found || pos == |draws| {
      return None;
    }
    PickDistinct(draws, |capitals|, n);
    var k := Intn(draws[pos], n);
    var answer := capitalsSet[k];
    var g := Generated(Question(id, answer.name, options[..]), answer.capital);
    assert DrawnFrom(capitals, chosen, g) by {
      assert g.question.country == capitals[chosen[k]].name && g.answer == capitals[chosen[k]].capital;
    }
    AnswerIsAnOption(capitals, chosen, g);
    r := Some(g);
  }
}
