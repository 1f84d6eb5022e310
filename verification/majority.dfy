/** Utilities.Majority: the plurality winner among the numeric and "½" votes. */
module Majority {
  import opened Wrappers
  import Strings
  import Numbers

  /** The body of the pattern -?\d+ (ASCII digits). */
  predicate SignedDigits(t: string)
  {
    var digits := if |t| > 0 && t[0] == '-' then t[1..] else t;
    |digits| > 0 && Numbers.AllDigits(digits)
  }

  /** Tokens Majority counts: those Regex ^-?\d+$ matches, and "½". */
  predicate Qualifies(x: string)
  {
    Strings.AnchoredMatch(x, SignedDigits) || x == "½"
  }

  /** The non-null entries `counts` accepts, in input order. */
  function Counted<T(==,!new)>(list: seq<Option<T>>, counts: T -> bool): (r: seq<T>)
    ensures forall v :: multiset(r)[v] == (if counts(v) then multiset(list)[Some(v)] else 0)
  {
    if |list| == 0 then []
    else
      var front := Counted(list[..|list| - 1], counts);
      var last := list[|list| - 1];
      assert list == list[..|list| - 1] + [last];
      if last.Some? && counts(last.value) then front + [last.value] else front
  }

  /** The distinct values of xs in order of first appearance: the keys GroupBy produces. */
  function Groups<T(==,!new)>(xs: seq<T>): (g: seq<T>)
    ensures forall v :: v in g <==> v in xs
    ensures forall i, j | 0 <= i < j < |g| :: g[i] != g[j]
  {
    if |xs| == 0 then []
    else
      var front := Groups(xs[..|xs| - 1]);
      var last := xs[|xs| - 1];
      assert xs == xs[..|xs| - 1] + [last];
      if last in front then front else front + [last]
  }

  /** The largest count any group of g has in xs. */
  function MaxCount<T(==)>(g: seq<T>, xs: seq<T>): (m: nat)
    ensures forall i | 0 <= i < |g| :: multiset(xs)[g[i]] <= m
    ensures |g| > 0 ==> exists i | 0 <= i < |g| :: multiset(xs)[g[i]] == m
  {
    if |g| == 0 then 0
    else
      var rest := MaxCount(g[1..], xs);
      assert forall i | 1 <= i < |g| :: g[i] == g[1..][i - 1];
      if multiset(xs)[g[0]] >= rest then multiset(xs)[g[0]] else rest
  }

  /** The groups reaching count m, in group order. */
  function AtCount<T(==,!new)>(g: seq<T>, xs: seq<T>, m: nat): (top: seq<T>)
    ensures forall v :: v in top <==> v in g && multiset(xs)[v] == m
    ensures (forall i, j | 0 <= i < j < |g| :: g[i] != g[j]) ==>
              forall i, j | 0 <= i < j < |top| :: top[i] != top[j]
  {
    if |g| == 0 then []
    else
      var front := AtCount(g[..|g| - 1], xs, m);
      var last := g[|g| - 1];
      assert g == g[..|g| - 1] + [last];
      if multiset(xs)[last] == m then front + [last] else front
  }

  /**
   * The computation of Utilities.Majority for any test of which tokens count:
   * group the counted entries, order the groups by descending count (a stable
   * order, so the first group among equals leads) and return the leader, or
   * None (null) when there are no groups or another group shares its count.
   */
  function Leader<T(==,!new)>(list: seq<Option<T>>, counts: T -> bool): Option<T>
  {
    var xs := Counted(list, counts);
    var groups := Groups(xs);
    if |groups| == 0 then None
    else
      var top := AtCount(groups, xs, MaxCount(groups, xs));
      if |top| > 1 then None else Some(top[0])
  }

  /** The reference definition: v counts and strictly outnumbers every other counted token. */
  ghost predicate Outnumbers<T(!new)>(list: seq<Option<T>>, counts: T -> bool, v: T)
  {
    && counts(v)
    && multiset(list)[Some(v)] > 0
    && forall w | counts(w) && w != v :: multiset(list)[Some(w)] < multiset(list)[Some(v)]
  }

  /** The facts the definition of Leader rests on, named once. */
  lemma LeaderShape<T(!new)>(list: seq<Option<T>>, counts: T -> bool)
    ensures var xs := Counted(list, counts);
            var groups := Groups(xs);
            |groups| > 0 ==>
              var top := AtCount(groups, xs, MaxCount(groups, xs));
              && |top| > 0
              && (forall i, j | 0 <= i < j < |top| :: top[i] != top[j])
              && Leader(list, counts) == (if |top| > 1 then None else Some(top[0]))
  {
  }

  lemma LeaderSound<T(!new)>(list: seq<Option<T>>, counts: T -> bool, v: T)
    requires Leader(list, counts) == Some(v)
    ensures Outnumbers(list, counts, v)
  {
    var xs := Counted(list, counts);
    var groups := Groups(xs);
    var m := MaxCount(groups, xs);
    var top := AtCount(groups, xs, m);
    LeaderShape(list, counts);
    assert top == [v];
    assert multiset(xs)[v] == m;
    assert v in xs;
    forall w | counts(w) && w != v
      ensures multiset(xs)[w] < m
    {
      if w in xs {
        assert w in groups;
        var k :| 0 <= k < |groups| && groups[k] == w;
        assert multiset(xs)[w] <= m;
        assert w !in top;
      }
    }
  }

  /** A value that strictly outnumbers every other one is the only group at the top count. */
  lemma TopIsSingle<T(!new)>(xs: seq<T>, v: T)
    requires multiset(xs)[v] > 0
    requires forall w | w != v :: multiset(xs)[w] < multiset(xs)[v]
    ensures AtCount(Groups(xs), xs, MaxCount(Groups(xs), xs)) == [v]
  {
    var groups := Groups(xs);
    var m := MaxCount(groups, xs);
    var top := AtCount(groups, xs, m);
    assert v in groups;
    var kv :| 0 <= kv < |groups| && groups[kv] == v;
    var i :| 0 <= i < |groups| && multiset(xs)[groups[i]] == m;
    assert groups[i] == v;
    assert v in top;
    assert |top| == 1 by {
      if |top| > 1 {
        assert top[0] in top && top[1] in top;
        assert multiset(xs)[top[0]] == m && multiset(xs)[top[1]] == m;
        assert top[0] == v && top[1] == v;
      }
    }
    assert top[0] == v;
  }

  lemma LeaderComplete<T(!new)>(list: seq<Option<T>>, counts: T -> bool, v: T)
    requires Outnumbers(list, counts, v)
    ensures Leader(list, counts) == Some(v)
  {
    var xs := Counted(list, counts);
    assert forall w | w != v :: multiset(xs)[w] < multiset(xs)[v];
    TopIsSingle(xs, v);
    assert v in Groups(xs);
  }

  /** Utilities.Majority(list). */
  function Majority(list: seq<Option<string>>): (r: Option<string>)
    ensures r.Some? ==> Qualifies(r.value) && Some(r.value) in list
  {
    var r := Leader(list, Qualifies);
    if r.Some? then LeaderSound(list, Qualifies, r.value); r else r
  }

  /** The reference definition for the server's tokens. */
  ghost predicate IsPlurality(list: seq<Option<string>>, v: string)
  {
    Outnumbers(list, Qualifies, v)
  }

  /** Majority returns v exactly when v is a qualifying token that strictly outnumbers every other one. */
  lemma MajorityIsPlurality(list: seq<Option<string>>, v: string)
    ensures Majority(list) == Some(v) <==> IsPlurality(list, v)
  {
    if Majority(list) == Some(v) {
      LeaderSound(list, Qualifies, v);
    }
    if IsPlurality(list, v) {
      LeaderComplete(list, Qualifies, v);
    }
  }

  /** At most one token can be the plurality winner. */
  lemma PluralityUnique(list: seq<Option<string>>, v: string, w: string)
    requires IsPlurality(list, v) && IsPlurality(list, w)
    ensures v == w
  {
  }

  /** Majority is None exactly when no token is the plurality winner: ties, no numbers, no votes. */
  lemma MajorityNoneIffNoPlurality(list: seq<Option<string>>)
    ensures Majority(list) == None <==> forall v :: !IsPlurality(list, v)
  {
    if Majority(list).Some? {
      MajorityIsPlurality(list, Majority(list).value);
    } else {
      forall v
        ensures !IsPlurality(list, v)
      {
        MajorityIsPlurality(list, v);
      }
    }
  }

  /** Reordering the votes never changes the majority. */
  lemma MajorityPermutationInvariant(a: seq<Option<string>>, b: seq<Option<string>>)
    requires multiset(a) == multiset(b)
    ensures Majority(a) == Majority(b)
  {
    assert forall v :: IsPlurality(a, v) <==> IsPlurality(b, v);
    if Majority(a).Some? {
      MajorityIsPlurality(a, Majority(a).value);
      MajorityIsPlurality(b, Majority(a).value);
    } else {
      MajorityNoneIffNoPlurality(a);
      MajorityNoneIffNoPlurality(b);
    }
  }

  /** A non-null majority occurs in the input and is itself a qualifying token. */
  lemma MajorityComesFromInput(list: seq<Option<string>>)
    ensures Majority(list).Some? ==> Some(Majority(list).value) in list && Qualifies(Majority(list).value)
  {
    if Majority(list).Some? {
      MajorityIsPlurality(list, Majority(list).value);
    }
  }

  /** ["3","3","5"] has the clear winner "3". */
  lemma ClearWinnerExample()
    ensures Majority([Some("3"), Some("3"), Some("5")]) == Some("3")
  {
    var list := [Some("3"), Some("3"), Some("5")];
    assert Numbers.AllDigits("3");
    assert Qualifies("3");
    assert multiset(list)[Some("3")] == 2;
    forall w | Qualifies(w) && w != "3"
      ensures multiset(list)[Some(w)] < 2
    {
      assert multiset(list)[Some(w)] == (if w == "5" then 1 else 0);
    }
    MajorityIsPlurality(list, "3");
  }

  /** ["3","3","5","5"] is a tie, so there is no majority. */
  lemma TieExample()
    ensures Majority([Some("3"), Some("3"), Some("5"), Some("5")]) == None
  {
    var tie := [Some("3"), Some("3"), Some("5"), Some("5")];
    assert Numbers.AllDigits("3") && Numbers.AllDigits("5");
    assert Qualifies("3") && Qualifies("5");
    forall v
      ensures !IsPlurality(tie, v)
    {
      assert multiset(tie)[Some(v)] == (if v == "3" || v == "5" then 2 else 0);
    }
    MajorityNoneIffNoPlurality(tie);
  }

  /** Cards that are not numbers are never counted: ["?","?"] has no majority. */
  lemma NonNumericExample()
    ensures Majority([Some("?"), Some("?")]) == None
  {
    var unknown := [Some("?"), Some("?")];
    assert !Qualifies("?") by {
      assert !Numbers.IsDigit('?');
    }
    forall v
      ensures !IsPlurality(unknown, v)
    {
      assert multiset(unknown)[Some(v)] == (if v == "?" then 2 else 0);
    }
    MajorityNoneIffNoPlurality(unknown);
  }

  /** No votes, no majority. */
  lemma EmptyExample()
    ensures Majority([]) == None
  {
    MajorityNoneIffNoPlurality([]);
  }
}
