/** Exactly which rows the flagging of missing candles changes, and how. */
module FlaggingLaws {
  import opened Basics
  import opened Market
  import opened CandleStore

  // ----- Holes and distances, in terms of the stored rows

  /** A newly found hole: stable neighbours more than a minute apart, the later one without a gap flag. */
  ghost predicate NewHole(rows: Rows, cutoff: int, g: int, u: int) {
    && cutoff <= g && g + MINUTE < u
    && g in rows && rows[g].stable
    && u in rows && rows[u].stable && !rows[u].gap
    && forall k <- rows :: k <= g || u <= k
  }

  /** How many rows are stored from `a` to `b`. */
  function Stored(rows: Rows, a: int, b: int): nat {
    |set t <- rows | a <= t <= b|
  }

  /** At least five rows lie between a row and a hole, counting the row next to the hole. */
  ghost predicate FarFrom(rows: Rows, g: int, u: int, t: int) {
    if t <= g then Stored(rows, t + 1, g) >= 5 else Stored(rows, u, t - 1) >= 5
  }

  lemma StoredBefore(rows: Rows, g: int, t: int)
    requires t in rows && t <= g
    ensures |Between(rows, t, g)| == Stored(rows, t + 1, g) + 1
  {
    assert Between(rows, t, g) == (set k <- rows | t + 1 <= k <= g) + {t};
  }

  lemma StoredAfter(rows: Rows, g: int, u: int, t: int)
    requires t in rows && g < u <= t && forall k <- rows :: k <= g || u <= k
    ensures |Between(rows, g + 1, t)| == Stored(rows, u, t - 1) + 1
  {
    assert Between(rows, g + 1, t) == (set k <- rows | u <= k <= t - 1) + {t};
  }

  lemma OpensGapIff(rows: Rows, cutoff: int, g: int)
    ensures OpensGap(rows, cutoff, g) <==> exists u :: NewHole(rows, cutoff, g, u)
  {
    if OpensGap(rows, cutoff, g) {
      var u :| u in rows && Adjacent(rows, g, u) && u > g + MINUTE && rows[u].stable && !rows[u].gap;
      assert NewHole(rows, cutoff, g, u);
    }
    if exists u :: NewHole(rows, cutoff, g, u) {
      var u :| NewHole(rows, cutoff, g, u);
      assert Adjacent(rows, g, u);
    }
  }

  lemma NearIff(rows: Rows, cutoff: int, g: int, u: int, t: int)
    requires NewHole(rows, cutoff, g, u) && t in rows && t >= cutoff
    ensures NearGap(rows, cutoff, g, t) <==> !FarFrom(rows, g, u, t)
    ensures SixthAfter(rows, cutoff, g, t) <==> u <= t && Stored(rows, u, t - 1) == 5
  {
    hide Between, Stored;
    if t <= g {
      StoredBefore(rows, g, t);
    } else {
      StoredAfter(rows, g, u, t);
    }
  }

  // ----- What stays stable

  lemma UnsettledIff(rows: Rows, cutoff: int, t: int)
    requires t in rows && t >= cutoff
    ensures (exists g <- OpenGaps(rows, cutoff) :: NearGap(rows, cutoff, g, t))
       <==> exists g, u :: NewHole(rows, cutoff, g, u) && !FarFrom(rows, g, u, t)
  {
    hide NearGap, FarFrom, NewHole, OpensGap;
    if exists g <- OpenGaps(rows, cutoff) :: NearGap(rows, cutoff, g, t) {
      var g :| g in OpenGaps(rows, cutoff) && NearGap(rows, cutoff, g, t);
      OpensGapIff(rows, cutoff, g);
      var u :| NewHole(rows, cutoff, g, u);
      NearIff(rows, cutoff, g, u, t);
    }
    if exists g, u :: NewHole(rows, cutoff, g, u) && !FarFrom(rows, g, u, t) {
      var g, u :| NewHole(rows, cutoff, g, u) && !FarFrom(rows, g, u, t);
      HoleIsStored(rows, cutoff, g, u);
      OpensGapIff(rows, cutoff, g);
      NearIff(rows, cutoff, g, u, t);
      assert g in OpenGaps(rows, cutoff);
    }
  }

  lemma HoleIsStored(rows: Rows, cutoff: int, g: int, u: int)
    requires NewHole(rows, cutoff, g, u)
    ensures g in rows
  {
  }

  lemma FlaggedStable(rows: Rows, cutoff: int, t: int)
    requires t in rows
    ensures Flagged(rows, cutoff)[t].stable
       <==> rows[t].stable && !exists g <- OpenGaps(rows, cutoff) :: NearGap(rows, cutoff, g, t)
  {
    hide OpensGap, NearGap, SixthAfter, AfterUnstable;
  }

  /**
   A stable row from the cutoff on stays stable if and only if at least five stored rows lie between it
   and every newly found hole, counting the row next to the hole. An unstable row stays unstable.
   */
  lemma StaysStableIff(rows: Rows, cutoff: int, t: int)
    requires t in rows && t >= cutoff
    ensures Flagged(rows, cutoff)[t].stable
       <==> rows[t].stable && forall g, u :: NewHole(rows, cutoff, g, u) ==> FarFrom(rows, g, u, t)
  {
    hide NearGap, FarFrom, NewHole, OpensGap, Flagged;
    FlaggedStable(rows, cutoff, t);
    UnsettledIff(rows, cutoff, t);
  }

  /** Rows before the cutoff are left alone, and no row is added or removed. */
  lemma BeforeCutoffUnchanged(rows: Rows, cutoff: int, t: int)
    ensures Flagged(rows, cutoff).Keys == rows.Keys
    ensures t in rows && t < cutoff ==> Flagged(rows, cutoff)[t] == rows[t]
  {
    hide OpensGap, AfterUnstable;
  }

  // ----- What gets a gap flag

  /** The sixth row after a newly found hole. */
  ghost predicate SixthAfterHole(rows: Rows, cutoff: int, t: int) {
    exists g, u :: NewHole(rows, cutoff, g, u) && u <= t && Stored(rows, u, t - 1) == 5
  }

  /** The row before is unstable. */
  ghost predicate FollowsUnstable(rows: Rows, t: int) {
    exists p <- rows :: p < t && !rows[p].stable && forall k <- rows :: k <= p || t <= k
  }

  lemma SixthIff(rows: Rows, cutoff: int, t: int)
    requires t in rows && t >= cutoff
    ensures (exists g <- OpenGaps(rows, cutoff) :: SixthAfter(rows, cutoff, g, t)) <==> SixthAfterHole(rows, cutoff, t)
  {
    hide SixthAfter, NewHole, OpensGap, Stored;
    if exists g <- OpenGaps(rows, cutoff) :: SixthAfter(rows, cutoff, g, t) {
      var g :| g in OpenGaps(rows, cutoff) && SixthAfter(rows, cutoff, g, t);
      OpensGapIff(rows, cutoff, g);
      var u :| NewHole(rows, cutoff, g, u);
      NearIff(rows, cutoff, g, u, t);
    }
    if exists g, u :: NewHole(rows, cutoff, g, u) && u <= t && Stored(rows, u, t - 1) == 5 {
      var g, u :| NewHole(rows, cutoff, g, u) && u <= t && Stored(rows, u, t - 1) == 5;
      HoleIsStored(rows, cutoff, g, u);
      OpensGapIff(rows, cutoff, g);
      NearIff(rows, cutoff, g, u, t);
      assert g in OpenGaps(rows, cutoff);
    }
  }

  lemma FollowsIff(rows: Rows, t: int)
    requires t in rows
    ensures AfterUnstable(rows, t) <==> FollowsUnstable(rows, t)
  {
    if AfterUnstable(rows, t) {
      var p :| p in rows && Adjacent(rows, p, t) && !rows[p].stable;
      assert p in rows && p < t && !rows[p].stable && forall k <- rows :: k <= p || t <= k;
    }
    if FollowsUnstable(rows, t) {
      var p :| p in rows && p < t && !rows[p].stable && forall k <- rows :: k <= p || t <= k;
      assert Adjacent(rows, p, t);
    }
  }

  lemma SameStability(a: Rows, b: Rows, t: int)
    requires a.Keys == b.Keys && forall k <- a :: a[k].stable == b[k].stable
    ensures AfterUnstable(a, t) <==> AfterUnstable(b, t)
  {
    forall p
      ensures Adjacent(a, p, t) <==> Adjacent(b, p, t)
    {
      assert forall k :: k in a <==> k in b;
    }
    assert forall k :: k in a <==> k in b;
  }

  lemma SameSixth(a: Rows, b: Rows, cutoff: int, g: int, t: int)
    requires a.Keys == b.Keys
    ensures SixthAfter(a, cutoff, g, t) <==> SixthAfter(b, cutoff, g, t)
  {
    assert forall k :: k in a <==> k in b;
    assert Between(a, g + 1, t) == Between(b, g + 1, t);
  }

  lemma FlaggedGap(rows: Rows, cutoff: int, t: int)
    requires t in rows && t >= cutoff
    ensures var flagged := Flagged(rows, cutoff);
      flagged[t].gap <==>
        || rows[t].gap
        || (exists g <- OpenGaps(rows, cutoff) :: SixthAfter(rows, cutoff, g, t))
        || (flagged[t].stable && AfterUnstable(flagged, t))
  {
    hide OpensGap, NearGap, SixthAfter, AfterUnstable;
    var gaps := OpenGaps(rows, cutoff);
    var unsettled := Unsettle(rows, cutoff, gaps);
    forall g
      ensures SixthAfter(unsettled, cutoff, g, t) <==> SixthAfter(rows, cutoff, g, t)
    {
      SameSixth(unsettled, rows, cutoff, g, t);
    }
    SameStability(MarkSixth(Unsettle(rows, cutoff, gaps), cutoff, gaps), Flagged(rows, cutoff), t);
  }

  /**
   A gap flag is never taken away, and added exactly to the sixth row after a newly found hole and to the
   rows that are stable afterwards right after one that is not.
   */
  lemma GapFlagIff(rows: Rows, cutoff: int, t: int)
    requires t in rows && t >= cutoff
    ensures var flagged := Flagged(rows, cutoff);
      flagged[t].gap <==>
        || rows[t].gap
        || SixthAfterHole(rows, cutoff, t)
        || (flagged[t].stable && FollowsUnstable(flagged, t))
  {
    hide Flagged, OpenGaps, SixthAfter, AfterUnstable, SixthAfterHole, FollowsUnstable;
    FlaggedGap(rows, cutoff, t);
    SixthIff(rows, cutoff, t);
    FollowsIff(Flagged(rows, cutoff), t);
  }
}
