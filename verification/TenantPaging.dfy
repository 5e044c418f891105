/**
 The session listing of agentd and its tenant filter (the `sessions` GET branch
 of `route_response`), followed page by page.  The listing has a fixed order;
 a page is what comes after the cursor, up to the limit.
 */
module TenantPaging {
  import opened Prelude

  datatype Session<I(==)> = Session(id: I, tenant: Option<string>)

  datatype SessionBatch<I(==)> = SessionBatch(sessions: seq<Session<I>>, nextCursor: Option<I>)

  datatype ListError<I> = UnknownCursor(cursor: I) | InvalidLimit(limit: int)

  ghost predicate DistinctIds<I>(raw: seq<Session<I>>) {
    forall i, j :: 0 <= i < j < |raw| ==> raw[i].id != raw[j].id
  }

  function IndexOf<I(==)>(raw: seq<Session<I>>, id: I): (k: nat)
    ensures k <= |raw|
    ensures k < |raw| ==> raw[k].id == id
    ensures forall j :: 0 <= j < k ==> raw[j].id != id
  {
    if raw == [] || raw[0].id == id then 0 else 1 + IndexOf(raw[1..], id)
  }

  predicate KnownCursor<I(==)>(raw: seq<Session<I>>, after: Option<I>) {
    after.None? || IndexOf(raw, after.value) < |raw|
  }

  /** Where the listing continues behind a cursor. */
  function Position<I(==)>(raw: seq<Session<I>>, after: Option<I>): (p: nat)
    requires KnownCursor(raw, after)
    ensures p <= |raw|
  {
    if after.None? then 0 else IndexOf(raw, after.value) + 1
  }

  /** `stream_sessions`: the raw page, and the cursor behind its last entry or the one given. */
  function StreamSessions<I(==)>(raw: seq<Session<I>>, after: Option<I>, limit: Option<int>)
    : (r: Result<SessionBatch<I>, ListError<I>>)
  {
    if limit.Some? && limit.value < 1 then Err(InvalidLimit(limit.value))
    else if !KnownCursor(raw, after) then Err(UnknownCursor(after.value))
    else
      var rest := raw[Position(raw, after)..];
      var page := if limit.None? then rest else FirstN(rest, limit.value);
      Ok(SessionBatch(page, if page != [] then Some(page[|page| - 1].id) else after))
  }

  /** With a tenant, sessions of other tenants are hidden; unstamped ones stay visible. */
  predicate IsVisible<I(==)>(s: Session<I>, tenant: Option<string>) {
    tenant.None? || s.tenant.None? || s.tenant == tenant
  }

  function VisibleTo<I(==)>(sessions: seq<Session<I>>, tenant: Option<string>): (r: seq<Session<I>>)
  {
    if sessions == [] then []
    else
      var last := sessions[|sessions| - 1];
      VisibleTo(sessions[..|sessions| - 1], tenant) + (if IsVisible(last, tenant) then [last] else [])
  }

  /** Filter a page and rewrite its cursor. */
  function FilteredBatch<I(==)>(batch: SessionBatch<I>, tenant: Option<string>): (r: SessionBatch<I>)
  {
    if tenant.None? then batch
    else
      var filtered := VisibleTo(batch.sessions, tenant);
      SessionBatch(filtered, if filtered != [] then Some(filtered[|filtered| - 1].id) else batch.nextCursor)
  }

  /** The GET branch. */
  function GetSessions<I(==)>(raw: seq<Session<I>>, tenant: Option<string>, after: Option<I>, limit: Option<int>)
    : (r: Result<SessionBatch<I>, ListError<I>>)
  {
    match StreamSessions(raw, after, limit)
    case Err(e) => Err(e)
    case Ok(batch) => Ok(FilteredBatch(batch, tenant))
  }

  // ------------------------------------------------------------------ one page

  lemma {:induction false} VisibleAppend<I>(a: seq<Session<I>>, b: seq<Session<I>>, tenant: Option<string>)
    ensures VisibleTo(a + b, tenant) == VisibleTo(a, tenant) + VisibleTo(b, tenant)
  {
    if b == [] {
      assert a + b == a;
    } else {
      assert (a + b)[..|a + b| - 1] == a + b[..|b| - 1];
      VisibleAppend(a, b[..|b| - 1], tenant);
    }
  }

  lemma {:induction false} NoTenantSeesAll<I>(sessions: seq<Session<I>>)
    ensures VisibleTo(sessions, None) == sessions
  {
    if sessions != [] {
      NoTenantSeesAll(sessions[..|sessions| - 1]);
    }
  }

  lemma {:induction false} AllHidden<I>(sessions: seq<Session<I>>, tenant: Option<string>)
    ensures VisibleTo(sessions, tenant) == [] <==> forall k :: 0 <= k < |sessions| ==> !IsVisible(sessions[k], tenant)
  {
    if sessions != [] {
      AllHidden(sessions[..|sessions| - 1], tenant);
    }
  }

  /** The last visible session of a page, with only hidden ones behind it. */
  lemma {:induction false} LastVisible<I>(sessions: seq<Session<I>>, tenant: Option<string>) returns (k: nat)
    requires VisibleTo(sessions, tenant) != []
    ensures k < |sessions| && IsVisible(sessions[k], tenant)
    ensures VisibleTo(sessions[..k + 1], tenant) == VisibleTo(sessions, tenant)
    ensures VisibleTo(sessions, tenant)[|VisibleTo(sessions, tenant)| - 1] == sessions[k]
    ensures forall j :: k < j < |sessions| ==> !IsVisible(sessions[j], tenant)
  {
    var init, last := sessions[..|sessions| - 1], sessions[|sessions| - 1];
    if IsVisible(last, tenant) {
      k := |sessions| - 1;
      assert sessions[..k + 1] == sessions;
    } else {
      k := LastVisible(init, tenant);
      assert init[..k + 1] == sessions[..k + 1];
    }
  }

  lemma PositionOf<I>(raw: seq<Session<I>>, k: nat)
    requires DistinctIds(raw) && k < |raw|
    ensures KnownCursor(raw, Some(raw[k].id)) && Position(raw, Some(raw[k].id)) == k + 1
  {
    var i := IndexOf(raw, raw[k].id);
    assert i <= k;
  }

  /** The raw page is the stretch behind the cursor, and its cursor points behind that stretch. */
  lemma RawPage<I>(raw: seq<Session<I>>, after: Option<I>, limit: Option<int>) returns (n: nat)
    requires DistinctIds(raw) && KnownCursor(raw, after)
    requires limit.Some? ==> limit.value >= 1
    ensures n == (if limit.None? || |raw| - Position(raw, after) <= limit.value then |raw| - Position(raw, after)
                  else limit.value)
    ensures StreamSessions(raw, after, limit).Ok?
    ensures StreamSessions(raw, after, limit).value.sessions == raw[Position(raw, after)..Position(raw, after) + n]
    ensures var next := StreamSessions(raw, after, limit).value.nextCursor;
            KnownCursor(raw, next) && Position(raw, next) == Position(raw, after) + n
  {
    var from := Position(raw, after);
    n := |StreamSessions(raw, after, limit).value.sessions|;
    if n > 0 {
      PositionOf(raw, from + n - 1);
    }
  }

  /** What a page holds, where its cursor points, and what it leaves out. */
  ghost predicate GoodPage<I>(raw: seq<Session<I>>, tenant: Option<string>, from: nat, to: nat, batch: SessionBatch<I>)
  {
    && KnownCursor(raw, batch.nextCursor)
    && Position(raw, batch.nextCursor) == to
    && from <= to <= |raw|
    && (from < |raw| ==> from < to)
    && VisibleTo(raw[from..to], tenant) == batch.sessions
    && (batch.sessions != [] ==> from < to && IsVisible(raw[to - 1], tenant))
  }

  /** Filtering a page and pointing its cursor at the last visible session. */
  lemma FilteredStretch<I>(raw: seq<Session<I>>, tenant: Option<string>, from: nat, n: nat) returns (to: nat)
    requires DistinctIds(raw) && from + n <= |raw|
    requires VisibleTo(raw[from..from + n], tenant) != []
    ensures from < to <= from + n && IsVisible(raw[to - 1], tenant)
    ensures VisibleTo(raw[from..to], tenant) == VisibleTo(raw[from..from + n], tenant)
    ensures var filtered := VisibleTo(raw[from..from + n], tenant);
            filtered[|filtered| - 1] == raw[to - 1]
  {
    var page := raw[from..from + n];
    var k := LastVisible(page, tenant);
    to := from + k + 1;
    assert page[..k + 1] == raw[from..to];
    assert page[k] == raw[to - 1];
  }

  /** A page of at most `limit` raw entries; when it comes back empty it passed over all of them. */
  ghost predicate GoodStep<I>(raw: seq<Session<I>>, tenant: Option<string>, from: nat, to: nat,
                              limit: Option<int>, batch: SessionBatch<I>) {
    && GoodPage(raw, tenant, from, to, batch)
    && (limit.Some? ==> to <= from + limit.value)
    && (batch.sessions == [] ==> to == |raw| || (limit.Some? && to == from + limit.value))
  }

  /**
   Every request returns the visible part of the stretch its cursor passes over,
   and passes over something as long as raw sessions remain.
   */
  lemma PageStep<I>(raw: seq<Session<I>>, tenant: Option<string>, after: Option<I>, limit: Option<int>)
    returns (to: nat)
    requires DistinctIds(raw) && KnownCursor(raw, after)
    requires limit.Some? ==> limit.value >= 1
    ensures GetSessions(raw, tenant, after, limit).Ok?
    ensures GoodStep(raw, tenant, Position(raw, after), to, limit, GetSessions(raw, tenant, after, limit).value)
  {
    var n := RawPage(raw, after, limit);
    to := FilteredStep(raw, tenant, Position(raw, after), n, limit, StreamSessions(raw, after, limit).value);
  }

  lemma FilteredStep<I>(raw: seq<Session<I>>, tenant: Option<string>, from: nat, n: nat, limit: Option<int>,
                        batch: SessionBatch<I>) returns (to: nat)
    requires DistinctIds(raw) && from + n <= |raw|
    requires n == |raw| - from || (limit.Some? && n == limit.value && n > 0)
    requires limit.Some? ==> n <= limit.value
    requires batch.sessions == raw[from..from + n]
    requires KnownCursor(raw, batch.nextCursor) && Position(raw, batch.nextCursor) == from + n
    ensures GoodStep(raw, tenant, from, to, limit, FilteredBatch(batch, tenant))
  {
    to := from + n;
    var filtered := VisibleTo(batch.sessions, tenant);
    if tenant.None? {
      UnchangedCursorIsGood(raw, tenant, from, n, limit, batch);
    } else if filtered != [] {
      to := FilteredStretch(raw, tenant, from, n);
      RewrittenCursorIsGood(raw, tenant, from, to, n, limit, filtered);
      assert FilteredBatch(batch, tenant) == SessionBatch(filtered, Some(raw[to - 1].id));
    } else {
      HiddenPageIsGood(raw, tenant, from, n, limit, batch);
      assert FilteredBatch(batch, tenant) == SessionBatch([], batch.nextCursor);
    }
  }

  lemma UnchangedCursorIsGood<I>(raw: seq<Session<I>>, tenant: Option<string>, from: nat, n: nat,
                                 limit: Option<int>, batch: SessionBatch<I>)
    requires tenant.None? && from + n <= |raw| && (n == |raw| - from || (limit.Some? && n == limit.value && n > 0))
    requires limit.Some? ==> n <= limit.value
    requires batch.sessions == raw[from..from + n]
    requires KnownCursor(raw, batch.nextCursor) && Position(raw, batch.nextCursor) == from + n
    ensures GoodStep(raw, tenant, from, from + n, limit, batch)
  {
    NoTenantSeesAll(batch.sessions);
  }

  lemma HiddenPageIsGood<I>(raw: seq<Session<I>>, tenant: Option<string>, from: nat, n: nat,
                            limit: Option<int>, batch: SessionBatch<I>)
    requires from + n <= |raw| && (n == |raw| - from || (limit.Some? && n == limit.value && n > 0))
    requires limit.Some? ==> n <= limit.value
    requires VisibleTo(raw[from..from + n], tenant) == []
    requires KnownCursor(raw, batch.nextCursor) && Position(raw, batch.nextCursor) == from + n
    ensures GoodStep(raw, tenant, from, from + n, limit, SessionBatch([], batch.nextCursor))
  {
  }

  lemma RewrittenCursorIsGood<I>(raw: seq<Session<I>>, tenant: Option<string>, from: nat, to: nat, n: nat,
                                 limit: Option<int>, filtered: seq<Session<I>>)
    requires DistinctIds(raw) && from < to <= from + n <= |raw|
    requires limit.Some? ==> n <= limit.value
    requires filtered != [] && VisibleTo(raw[from..to], tenant) == filtered && IsVisible(raw[to - 1], tenant)
    ensures GoodStep(raw, tenant, from, to, limit, SessionBatch(filtered, Some(raw[to - 1].id)))
  {
    PositionOf(raw, to - 1);
  }

  // ----------------------------------------------------------- following pages

  /** A client that follows `next_cursor` until it stops moving. */
  function Follow<I(==)>(raw: seq<Session<I>>, tenant: Option<string>, after: Option<I>, limit: Option<int>)
    : (r: seq<Session<I>>)
    requires DistinctIds(raw) && KnownCursor(raw, after)
    requires limit.Some? ==> limit.value >= 1
    decreases |raw| - Position(raw, after)
  {
    MovingCursorAdvances(raw, tenant, after, limit);
    var batch := GetSessions(raw, tenant, after, limit).value;
    if batch.nextCursor == after then batch.sessions
    else batch.sessions + Follow(raw, tenant, batch.nextCursor, limit)
  }

  /** The cursor stands still exactly when the raw listing is exhausted, and otherwise advances. */
  lemma MovingCursorAdvances<I>(raw: seq<Session<I>>, tenant: Option<string>, after: Option<I>, limit: Option<int>)
    requires DistinctIds(raw) && KnownCursor(raw, after)
    requires limit.Some? ==> limit.value >= 1
    ensures GetSessions(raw, tenant, after, limit).Ok?
    ensures var next := GetSessions(raw, tenant, after, limit).value.nextCursor;
            && KnownCursor(raw, next)
            && (next == after <==> Position(raw, after) == |raw|)
            && (Position(raw, after) < |raw| ==> Position(raw, next) > Position(raw, after))
  {
    var to := PageStep(raw, tenant, after, limit);
    var n := RawPage(raw, after, limit);
    if Position(raw, after) == |raw| {
      assert raw[|raw|..|raw|] == [];
    }
  }

  /** Following the cursor returns each visible session exactly once and in order. */
  lemma {:induction false} FollowingIsComplete<I>(raw: seq<Session<I>>, tenant: Option<string>,
                                                  after: Option<I>, limit: Option<int>)
    requires DistinctIds(raw) && KnownCursor(raw, after)
    requires limit.Some? ==> limit.value >= 1
    ensures Follow(raw, tenant, after, limit) == VisibleTo(raw[Position(raw, after)..], tenant)
    decreases |raw| - Position(raw, after)
  {
    var to := PageStep(raw, tenant, after, limit);
    MovingCursorAdvances(raw, tenant, after, limit);
    var next := GetSessions(raw, tenant, after, limit).value.nextCursor;
    if next != after {
      FollowingIsComplete(raw, tenant, next, limit);
    }
    VisibleSplit(raw, tenant, Position(raw, after), to);
  }

  lemma VisibleSplit<I>(raw: seq<Session<I>>, tenant: Option<string>, from: nat, to: nat)
    requires from <= to <= |raw|
    ensures VisibleTo(raw[from..], tenant) == VisibleTo(raw[from..to], tenant) + VisibleTo(raw[to..], tenant)
    ensures to == |raw| ==> VisibleTo(raw[from..], tenant) == VisibleTo(raw[from..to], tenant)
  {
    assert raw[from..] == raw[from..to] + raw[to..];
    VisibleAppend(raw[from..to], raw[to..], tenant);
    if to == |raw| {
      assert raw[from..] == raw[from..to];
    }
  }

  /** A client that takes an empty page for the end. */
  function FollowToEmptyPage<I(==)>(raw: seq<Session<I>>, tenant: Option<string>, after: Option<I>, limit: int)
    : (r: seq<Session<I>>)
    requires DistinctIds(raw) && KnownCursor(raw, after) && limit >= 1
    decreases |raw| - Position(raw, after)
  {
    NonEmptyPageAdvances(raw, tenant, after, limit);
    var batch := GetSessions(raw, tenant, after, Some(limit)).value;
    if batch.sessions == [] then []
    else batch.sessions + FollowToEmptyPage(raw, tenant, batch.nextCursor, limit)
  }

  lemma NonEmptyPageAdvances<I>(raw: seq<Session<I>>, tenant: Option<string>, after: Option<I>, limit: int)
    requires DistinctIds(raw) && KnownCursor(raw, after) && limit >= 1
    ensures GetSessions(raw, tenant, after, Some(limit)).Ok?
    ensures var batch := GetSessions(raw, tenant, after, Some(limit)).value;
            && KnownCursor(raw, batch.nextCursor)
            && (batch.sessions != [] ==> Position(raw, batch.nextCursor) > Position(raw, after))
  {
    var to := PageStep(raw, tenant, after, Some(limit));
  }

  ghost predicate HiddenRun<I>(raw: seq<Session<I>>, tenant: Option<string>, a: nat, b: nat)
    requires b <= |raw|
  {
    forall k :: a <= k < b ==> !IsVisible(raw[k], tenant)
  }

  /** From position `from` on, no visible session has `limit` or more hidden ones right before it. */
  ghost predicate ShortGaps<I>(raw: seq<Session<I>>, tenant: Option<string>, from: nat, limit: int) {
    forall a, b :: from <= a <= b < |raw| && HiddenRun(raw, tenant, a, b) && IsVisible(raw[b], tenant) ==> b - a < limit
  }

  /** Taking an empty page for the end is right exactly when hidden runs are shorter than a page. */
  lemma {:induction false} EmptyPageIsTheEndIff<I>(raw: seq<Session<I>>, tenant: Option<string>,
                                                   after: Option<I>, limit: int)
    requires DistinctIds(raw) && KnownCursor(raw, after) && limit >= 1
    ensures FollowToEmptyPage(raw, tenant, after, limit) == VisibleTo(raw[Position(raw, after)..], tenant) <==>
            ShortGaps(raw, tenant, Position(raw, after), limit)
    decreases |raw| - Position(raw, after)
  {
    var to := PageStep(raw, tenant, after, Some(limit));
    NonEmptyPageAdvances(raw, tenant, after, limit);
    var batch := GetSessions(raw, tenant, after, Some(limit)).value;
    var from := Position(raw, after);
    VisibleSplit(raw, tenant, from, to);
    if batch.sessions != [] {
      EmptyPageIsTheEndIff(raw, tenant, batch.nextCursor, limit);
      GapsBehindVisible(raw, tenant, from, to, limit);
      SamePrefix(batch.sessions, FollowToEmptyPage(raw, tenant, batch.nextCursor, limit), VisibleTo(raw[to..], tenant));
    } else {
      EmptyPageGap(raw, tenant, from, to, limit);
    }
  }

  /** Behind an empty page something visible remains exactly when some gap is a page long. */
  lemma EmptyPageGap<I>(raw: seq<Session<I>>, tenant: Option<string>, from: nat, to: nat, limit: int)
    requires from <= to <= |raw| && limit >= 1 && VisibleTo(raw[from..to], tenant) == []
    requires to == |raw| || to == from + limit
    ensures VisibleTo(raw[from..], tenant) == [] <==> ShortGaps(raw, tenant, from, limit)
  {
    VisibleSplit(raw, tenant, from, to);
    if VisibleTo(raw[from..], tenant) != [] {
      var b := FirstVisible(raw, tenant, from);
      AllHidden(raw[from..to], tenant);
      assert HiddenRun(raw, tenant, from, b);
    } else {
      AllHidden(raw[from..], tenant);
      var rest := raw[from..];
      assert forall k :: 0 <= k < |rest| ==> rest[k] == raw[from + k];
      assert forall b :: from <= b < |raw| ==> raw[b] == rest[b - from];
    }
  }

  lemma SamePrefix<T>(p: seq<T>, a: seq<T>, b: seq<T>)
    ensures p + a == p + b <==> a == b
  {
    assert (p + a)[|p|..] == a && (p + b)[|p|..] == b;
  }

  lemma FirstVisible<I>(raw: seq<Session<I>>, tenant: Option<string>, from: nat) returns (b: nat)
    requires from <= |raw| && VisibleTo(raw[from..], tenant) != []
    ensures from <= b < |raw| && IsVisible(raw[b], tenant)
    ensures forall k :: from <= k < b ==> !IsVisible(raw[k], tenant)
  {
    AllHidden(raw[from..], tenant);
    var some :| 0 <= some < |raw[from..]| && IsVisible(raw[from..][some], tenant);
    b := from;
    while !IsVisible(raw[b], tenant)
      invariant from <= b <= from + some
      invariant forall k :: from <= k < b ==> !IsVisible(raw[k], tenant)
      decreases from + some - b
    {
      b := b + 1;
    }
  }

  /** Gaps that end within a page are short, and no gap runs across a visible session. */
  lemma GapsBehindVisible<I>(raw: seq<Session<I>>, tenant: Option<string>, from: nat, to: nat, limit: int)
    requires from < to <= |raw| && to - from <= limit && IsVisible(raw[to - 1], tenant)
    ensures ShortGaps(raw, tenant, from, limit) <==> ShortGaps(raw, tenant, to, limit)
  {
  }

  // ---------------------------------------------------------- in plain terms

  /** What a tenant may see: its own sessions and unstamped ones; without a tenant, all. */
  lemma {:induction false} VisibleAre<I>(sessions: seq<Session<I>>, tenant: Option<string>) returns (at: seq<nat>)
    ensures Picks(sessions, VisibleTo(sessions, tenant), at)
    ensures forall i :: 0 <= i < |sessions| ==>
              (i in at <==> tenant.None? || sessions[i].tenant.None? || sessions[i].tenant == tenant)
  {
    at := [];
    if sessions != [] {
      var init, last := sessions[..|sessions| - 1], sessions[|sessions| - 1];
      InitAndLast(sessions);
      at := VisibleAre(init, tenant);
      PicksOneMore(init, last, VisibleTo(init, tenant), at);
      if tenant.None? || last.tenant.None? || last.tenant == tenant {
        at := at + [|init|];
      } else {
        AppendNothing(VisibleTo(init, tenant), []);
      }
    }
  }

  /** Following the cursor from the start collects exactly those, in order. */
  lemma FollowedAre<I>(raw: seq<Session<I>>, tenant: Option<string>, limit: Option<int>) returns (at: seq<nat>)
    requires DistinctIds(raw) && (limit.Some? ==> limit.value >= 1)
    ensures Picks(raw, Follow(raw, tenant, None, limit), at)
    ensures forall i :: 0 <= i < |raw| ==>
              (i in at <==> tenant.None? || raw[i].tenant.None? || raw[i].tenant == tenant)
  {
    FollowingIsComplete(raw, tenant, None, limit);
    assert raw[0..] == raw;
    at := VisibleAre(raw, tenant);
  }

  /** When a listing request is refused, and how. */
  lemma ListingRefusedIff<I>(raw: seq<Session<I>>, tenant: Option<string>, after: Option<I>, limit: Option<int>)
    ensures GetSessions(raw, tenant, after, limit).Err? <==>
            || (limit.Some? && limit.value < 1)
            || (after.Some? && forall k :: 0 <= k < |raw| ==> raw[k].id != after.value)
    ensures GetSessions(raw, tenant, after, limit).Err? ==>
              GetSessions(raw, tenant, after, limit).error
              == if limit.Some? && limit.value < 1 then InvalidLimit(limit.value) else UnknownCursor(after.value)
  {
  }
}
