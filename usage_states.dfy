/**
 * The per-class usage state machine of the unused/single-usage class rule
 * (`ClassUsageState` and `ClassInfo.TrackUsage`), as pure functions, with its
 * characterisation by reference counts.
 */
module UsageStates {
  /** How much a tracked class has been used so far. */
  datatype UsageState = Unused | OnlyDiUsage | SingleNonDiUsage | MultipleUsages

  /**
   * The state `TrackUsage` moves to on one reference, DI registration or not.
   * A state never moves backward, and a class that is reportable after a
   * reference was reportable before it.
   */
  function Next(state: UsageState, isDiUsage: bool): (next: UsageState)
    ensures Rank(state) <= Rank(next)
    ensures Reportable(next) ==> Reportable(state)
  {
    match state
    case Unused => if isDiUsage then OnlyDiUsage else SingleNonDiUsage
    case OnlyDiUsage => if isDiUsage then OnlyDiUsage else MultipleUsages
    case SingleNonDiUsage => MultipleUsages
    case MultipleUsages => MultipleUsages
  }

  /** States the final report switch turns into a diagnostic. */
  predicate Reportable(state: UsageState) {
    state.Unused? || state.OnlyDiUsage? || state.SingleNonDiUsage?
  }

  /** Position of a state in the one-way lattice Unused < {OnlyDi, SingleNonDi} < Multiple. */
  function Rank(state: UsageState): nat {
    match state
    case Unused => 0
    case OnlyDiUsage => 1
    case SingleNonDiUsage => 1
    case MultipleUsages => 2
  }
  /** The reportable states are exactly those below the top of the lattice. */
  lemma ReportableIffBelowTop(state: UsageState)
    ensures Reportable(state) <==> Rank(state) < 2
  {
  }


  /** Transitions never go backward, and MultipleUsages is absorbing. */
  lemma NextIsMonotone(state: UsageState, isDiUsage: bool)
    ensures Rank(state) <= Rank(Next(state, isDiUsage))
    ensures state == MultipleUsages ==> Next(state, isDiUsage) == MultipleUsages
  {
  }

  /** From Unused: a DI reference gives OnlyDiUsage, any other one SingleNonDiUsage. */
  lemma NextFromUnused(isDiUsage: bool)
    ensures Next(Unused, isDiUsage) == if isDiUsage then OnlyDiUsage else SingleNonDiUsage
    ensures Reportable(Next(Unused, isDiUsage))
  {
  }

  /** From OnlyDiUsage: DI references change nothing, the first other reference is fatal. */
  lemma NextFromOnlyDiUsage(isDiUsage: bool)
    ensures isDiUsage ==> Next(OnlyDiUsage, isDiUsage) == OnlyDiUsage
    ensures !isDiUsage ==> Next(OnlyDiUsage, isDiUsage) == MultipleUsages
  {
  }

  /** From SingleNonDiUsage every reference, DI or not, leads to MultipleUsages. */
  lemma NextFromSingleNonDiUsage(isDiUsage: bool)
    ensures Next(SingleNonDiUsage, isDiUsage) == MultipleUsages
    ensures !Reportable(Next(SingleNonDiUsage, isDiUsage))
  {
  }

  /** Number of non-DI references in a sequence of `isDiUsage` flags. */
  function NonDiCount(flags: seq<bool>): nat {
    if flags == [] then 0 else (if flags[0] then 0 else 1) + NonDiCount(flags[1..])
  }

  /** Number of DI references in a sequence of `isDiUsage` flags. */
  function DiCount(flags: seq<bool>): nat {
    if flags == [] then 0 else (if flags[0] then 1 else 0) + DiCount(flags[1..])
  }

  /**
   * Reference definition of the verdict: the state a class is in after
   * `nonDi` non-DI references and `di` DI references, in any order.
   */
  function StateFromCounts(nonDi: nat, di: nat): UsageState {
    if nonDi == 0 && di == 0 then Unused
    else if nonDi == 0 then OnlyDiUsage
    else if nonDi == 1 && di == 0 then SingleNonDiUsage
    else MultipleUsages
  }

  /** The state after feeding `flags`, in order, to `TrackUsage` starting from `state`. */
  function Replay(state: UsageState, flags: seq<bool>): UsageState
    decreases |flags|
  {
    if flags == [] then state else Replay(Next(state, flags[0]), flags[1..])
  }

  /** One transition adds one reference to the counts. */
  lemma NextFollowsCounts(nonDi: nat, di: nat, isDiUsage: bool)
    ensures Next(StateFromCounts(nonDi, di), isDiUsage)
         == if isDiUsage then StateFromCounts(nonDi, di + 1) else StateFromCounts(nonDi + 1, di)
  {
  }

  /** Replaying references from a count-described state adds their counts. */
  lemma {:induction false} ReplayFollowsCounts(nonDi: nat, di: nat, flags: seq<bool>)
    ensures Replay(StateFromCounts(nonDi, di), flags)
         == StateFromCounts(nonDi + NonDiCount(flags), di + DiCount(flags))
    decreases |flags|
  {
    if flags != [] {
      NextFollowsCounts(nonDi, di, flags[0]);
      if flags[0] {
        ReplayFollowsCounts(nonDi, di + 1, flags[1..]);
      } else {
        ReplayFollowsCounts(nonDi + 1, di, flags[1..]);
      }
    }
  }

  /** The fold from Unused is determined by the two counts alone. */
  lemma ReplayFromUnused(flags: seq<bool>)
    ensures Replay(Unused, flags) == StateFromCounts(NonDiCount(flags), DiCount(flags))
  {
    ReplayFollowsCounts(0, 0, flags);
  }

  /** Once MultipleUsages is reached no later reference changes it. */
  lemma {:induction false} ReplayFromMultipleUsages(flags: seq<bool>)
    ensures Replay(MultipleUsages, flags) == MultipleUsages
    decreases |flags|
  {
    if flags != [] {
      ReplayFromMultipleUsages(flags[1..]);
    }
  }

  /**
   * A class is reported iff it received no non-DI reference, or exactly one
   * non-DI reference and no DI reference.
   */
  lemma ReportableIffCounts(flags: seq<bool>)
    ensures Reportable(Replay(Unused, flags))
        <==> NonDiCount(flags) == 0 || (NonDiCount(flags) == 1 && DiCount(flags) == 0)
  {
    ReplayFromUnused(flags);
  }

  /** The counts are the multiplicities of `false` and `true` in the flags. */
  lemma {:induction false} CountsAreMultiplicities(flags: seq<bool>)
    ensures NonDiCount(flags) == multiset(flags)[false]
    ensures DiCount(flags) == multiset(flags)[true]
    decreases |flags|
  {
    if flags != [] {
      CountsAreMultiplicities(flags[1..]);
      assert flags == [flags[0]] + flags[1..];
      assert multiset(flags) == multiset{flags[0]} + multiset(flags[1..]);
    }
  }

  /** The verdict does not depend on the order of the references. */
  lemma ReplayIsOrderIndependent(flags: seq<bool>, reordered: seq<bool>)
    requires multiset(flags) == multiset(reordered)
    ensures Replay(Unused, flags) == Replay(Unused, reordered)
  {
    CountsAreMultiplicities(flags);
    CountsAreMultiplicities(reordered);
    ReplayFromUnused(flags);
    ReplayFromUnused(reordered);
  }
}
