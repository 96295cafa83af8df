/**
  Optimistic status writes (pkg/controller/status.go).

  The API server keeps every version an object ever had: `versions[i]` is the object after
  `i` writes, and its last entry is the stored object. A client writes from a copy of some
  version; the server takes the write only if that version is still the last one. On a
  conflict the client reads the object again, possibly from a cache that lags, and applies its
  callback to what it read. A callback yields `None` when it changes nothing.
*/
module StatusWrites {
  import opened Prelude

  type Callback<!T> = T -> Option<T>

  /** A client's copy: the version it was read at, and the value, which the client may have edited. */
  datatype Copy<T> = Copy(version: nat, value: T)

  datatype Outcome = Written | Unchanged | Failed

  /** What the rest of the cluster does around one attempt of a write. */
  datatype Turn<T> = Turn(
    others: seq<T>,       // versions other writers store before the update arrives
    fails: bool,          // the update fails for a reason that is not a conflict
    refetch: Option<nat>  // the version a refetch after a conflict returns; None is a failed read
  )

  /** retry.DefaultRetry.Steps. */
  const ATTEMPTS := 5

  /**
    What a write's callback is applied to when `versions` are stored: the client's own copy if
    nobody wrote since it was read, and otherwise the stored object, so that any edit made to the
    copy outside the callback is dropped.
  */
  function Base<T>(versions: seq<T>, copy: Copy<T>): T
    requires |versions| > 0
  {
    if copy.version == |versions| - 1 then copy.value else Last(versions)
  }

  class Server<T(==)> {
    var versions: seq<T>

    ghost predicate Valid() reads this { |versions| > 0 }

    constructor (initial: T)
      ensures Valid() && versions == [initial]
    {
      versions := [initial];
    }

    /**
      updateStatusWithRetry. `at` is the index of the version this call wrote.

      Whatever other writers and the cache do, the call stores at most one version of its own,
      that version is the callback applied to the version right before it (or to the caller's
      copy when nothing came in between), and every other writer's version is kept.
    */
    method UpdateStatusWithRetry(copy: Copy<T>, mutate: Callback<T>, turns: seq<Turn<T>>)
      returns (outcome: Outcome, at: nat, turnsTaken: nat)
      requires Valid() && copy.version < |versions|
      requires |turns| == ATTEMPTS
      modifies this
      ensures Valid()
      ensures old(versions) <= versions
      ensures outcome == Written ==>
        && |old(versions)| <= at < |versions|
        && mutate(Base(versions[..at], copy)) == Some(versions[at])
      ensures copy.version == |old(versions)| - 1 && turns[0].others == [] && !turns[0].fails ==>
        outcome == if mutate(copy.value).Some? then Written else Unchanged
      ensures outcome == Unchanged ==>
        mutate(copy.value).None? || exists v :: 0 <= v < |versions| && mutate(versions[v]).None?
      ensures turnsTaken <= ATTEMPTS
      ensures outcome == Failed ==>
        0 < turnsTaken && (turnsTaken == ATTEMPTS || GaveUp(turns[turnsTaken - 1], |versions|))
      ensures OthersOnly(old(versions), versions, if outcome == Written then Some(at) else None, turns[..turnsTaken])
    {
      hide OthersOnly, OthersOf, Flatten;
      var local, i := copy, 0;
      ghost var before := versions;
      NoOthers(turns);
      while i < ATTEMPTS
        invariant 0 <= i <= ATTEMPTS
        invariant |versions| > 0 && local.version < |versions|
        invariant versions == before + Flatten(OthersOf(turns[..i]))
        invariant i == 0 ==> local == copy
        invariant i > 0 ==> copy.version < |before| - 1 || turns[0].others != []
        invariant local == copy || (local.value == versions[local.version] && copy.version < |versions| - 1)
      {
        var turn := turns[i];
        var next := mutate(local.value);
        if next.None? {
          NothingOwn(before, versions, turns[..i]);
          return Unchanged, 0, i;
        }
        versions := versions + turn.others;
        OthersSnoc(turns, i);
        NothingOwn(before, versions, turns[..i + 1]);
        if turn.fails {
          return Failed, 0, i + 1;
        }
        if local.version == |versions| - 1 {
          at := |versions|;
          versions := versions + [next.value];
          OneOwn(before, versions[..at], next.value, turns[..i + 1]);
          assert versions == versions[..at] + [next.value];
          return Written, at, i + 1;
        }
        if turn.refetch.None? || turn.refetch.value >= |versions| {
          return Failed, 0, i + 1;
        }
        local := Copy(turn.refetch.value, versions[turn.refetch.value]);
        i := i + 1;
      }
      NothingOwn(before, versions, turns[..ATTEMPTS]);
      return Failed, 0, ATTEMPTS;
    }
  }

  lemma NoOthers<T>(turns: seq<Turn<T>>)
    ensures Flatten(OthersOf(turns[..0])) == []
  {
  }

  lemma OthersSnoc<T>(turns: seq<Turn<T>>, i: nat)
    requires i < |turns|
    ensures Flatten(OthersOf(turns[..i + 1])) == Flatten(OthersOf(turns[..i])) + turns[i].others
  {
    FlattenSnoc(OthersOf(turns[..i]), turns[i].others);
    assert OthersOf(turns[..i + 1]) == OthersOf(turns[..i]) + [turns[i].others];
  }

  lemma NothingOwn<T>(before: seq<T>, after: seq<T>, turns: seq<Turn<T>>)
    requires after == before + Flatten(OthersOf(turns))
    ensures OthersOnly(before, after, None, turns)
  {
  }

  lemma OneOwn<T>(before: seq<T>, others: seq<T>, own: T, turns: seq<Turn<T>>)
    requires others == before + Flatten(OthersOf(turns))
    ensures OthersOnly(before, others + [own], Some(|others|), turns)
  {
    assert (others + [own])[..|others|] + (others + [own])[|others| + 1..] == others;
  }

  /** The update failed outright, or the refetch after a conflict did. */
  predicate GaveUp<T>(turn: Turn<T>, stored: nat) {
    turn.fails || turn.refetch.None? || turn.refetch.value >= stored
  }

  ghost function OthersOf<T>(turns: seq<Turn<T>>): seq<seq<T>> {
    seq(|turns|, i requires 0 <= i < |turns| => turns[i].others)
  }

  /** Leaving out the call's own version, `after` is `before` followed by what other writers stored. */
  ghost predicate OthersOnly<T>(before: seq<T>, after: seq<T>, own: Option<nat>, turns: seq<Turn<T>>) {
    && (own.Some? ==> own.value < |after|)
    && (match own
        case None => after
        case Some(k) => after[..k] + after[k + 1..]) == before + Flatten(OthersOf(turns))
  }
}
