/** When a write succeeds, which error it returns otherwise, and what its hook calls publish. */
module StoreLaws {
  import opened Wrappers
  import opened Items
  import opened Table
  import opened Hook
  import opened Store
  import Scope

  ghost predicate IdIsTaken(rows: seq<Row>, id: ItemId) {
    exists row :: row in rows && row.id == id
  }

  ghost predicate KeyIsTaken(rows: seq<Row>, key: string) {
    exists row :: row in rows && row.externalId == Some(key)
  }

  lemma {:induction false} Taken(rows: seq<Row>, id: ItemId, key: string)
    ensures HasId(rows, id) <==> IdIsTaken(rows, id)
    ensures HasKey(rows, key) <==> KeyIsTaken(rows, key)
  {
    if HasId(rows, id) { assert rows[IndexOfId(rows, 0, id).value] in rows; }
    if HasKey(rows, key) { assert rows[IndexOfKey(rows, 0, key).value] in rows; }
  }

  /** The reason a write is refused before it reaches the table, in the order of the checks. */
  ghost predicate RefusedEarly(env: Surroundings, w: World, item: NewItem, e: Error) {
    if env.readOnly then e == ReadOnly
    else if !IsValid(item) then Validate(item) == Err(e)
    else env.clock(w.ticks) <= -1_000_000 && e == Invalid("internal:timestamp")
  }

  /** The reason the table refuses a new row, in the order of the checks. */
  ghost predicate RefusedByTable(env: Surroundings, w: World, item: NewItem, id: ItemId, e: Error) {
    if item.supersedes.Some? && !IdIsTaken(w.rows, item.supersedes.value) then
      e == SupersedesNotFound(item.supersedes.value)
    else if "\0" <= item.content then e == Sqlite
    else if item.externalId.Some? && KeyIsTaken(w.rows, item.externalId.value) then
      e == ExternalIdConflict(item.externalId.value)
    else IdIsTaken(w.rows, id) && e == Sqlite
  }

  lemma {:induction false} EarlyClock(now: int, random: nat)
    ensures MintId(now, random).None? <==> now <= -1_000_000
  {
    MintMeaning(now, random);
  }

  lemma {:induction false} ValidContent(item: NewItem)
    requires IsValid(item)
    ensures item.content != "" && (IsStorable(item.content) <==> !("\0" <= item.content))
  {
    ValidItems(item);
    assert item.content != "";
    assert item.content[..1] == [item.content[0]];
  }

  /** `ingest` fails exactly for the first of these reasons. */
  lemma {:induction false} WhenIngestFails(env: Surroundings, w: World, item: NewItem, e: Error)
    ensures Ingested(env, w, item).1 == Err(e) <==>
              || RefusedEarly(env, w, item, e)
              || (!env.readOnly && IsValid(item) && env.clock(w.ticks) > -1_000_000
                  && RefusedByTable(env, w, item, MintId(env.clock(w.ticks), env.random(w.draws)).value, e))
  {
    var now := env.clock(w.ticks);
    EarlyClock(now, env.random(w.draws));
    if !env.readOnly && IsValid(item) && now > -1_000_000 {
      ValidContent(item);
      if item.supersedes.Some? { Taken(w.rows, item.supersedes.value, ""); }
      if item.externalId.Some? { Taken(w.rows, 0, item.externalId.value); }
      Taken(w.rows, MintId(now, env.random(w.draws)).value, "");
    }
  }

  /** `set_scope` fails exactly for the first of these reasons, and changes nothing else than the one row's scope. */
  lemma {:induction false} WhenRescopeFails(env: Surroundings, w: World, id: ItemId, scope: Option<string>, e: Error)
    ensures Rescoped(env, w, id, scope).1 == Err(e) <==>
              if env.readOnly then e == ReadOnly
              else if scope.Some? && Scope.Normalise(scope.value).Err? then e == Invalid("scope")
              else !IdIsTaken(w.rows, id) && e == NotFound(id)
  {
    Taken(w.rows, id, "");
  }

  /******* Replacing *******/

  /** The row `target` names is known, so its key is free when its successor is checked. */
  ghost predicate RefusedReplacement(env: Surroundings, w: World, item: NewItem, target: ItemId, id: ItemId, e: Error) {
    if !IdIsTaken(w.rows, target) then e == SupersedesNotFound(target)
    else if "\0" <= item.content then e == Sqlite
    else if item.externalId.Some? && HeldByAnother(w.rows, item.externalId.value, target) then
      e == ExternalIdConflict(item.externalId.value)
    else IdIsTaken(w.rows, id) && e == Sqlite
  }

  ghost predicate HeldByAnother(rows: seq<Row>, key: string, target: ItemId) {
    exists row :: row in rows && row.externalId == Some(key) && row.id != target
  }

  lemma {:induction false} ClearedRow(rows: seq<Row>, k: nat, key: string, id: ItemId)
    requires Valid(rows) && k < |rows|
    ensures var cleared := rows[k := rows[k].(externalId := None)];
            && (HasKey(cleared, key) <==> HeldByAnother(rows, key, rows[k].id))
            && (HasId(cleared, id) <==> IdIsTaken(rows, id))
  {
    var cleared := rows[k := rows[k].(externalId := None)];
    if HasKey(cleared, key) {
      var j := IndexOfKey(cleared, 0, key).value;
      assert rows[j] in rows && rows[j].id != rows[k].id;
    }
    if HeldByAnother(rows, key, rows[k].id) {
      var row :| row in rows && row.externalId == Some(key) && row.id != rows[k].id;
      var j :| 0 <= j < |rows| && rows[j] == row;
      assert cleared[j] == row;
    }
    Taken(rows, id, key);
    assert forall j :: 0 <= j < |rows| ==> cleared[j].id == rows[j].id;
  }

  /** Replacing fails exactly for the first of these reasons; its own `supersedes` is never looked at. */
  lemma {:induction false} WhenReplacementFails(env: Surroundings, w: World, item: NewItem, target: ItemId, e: Error)
    requires Valid(w.rows)
    ensures Replaced(env, w, item, target).1 == Err(e) <==>
              || RefusedEarly(env, w, item, e)
              || (!env.readOnly && IsValid(item) && env.clock(w.ticks) > -1_000_000
                  && RefusedReplacement(env, w, item, target,
                                        MintId(env.clock(w.ticks), env.random(w.draws)).value, e))
  {
    var now := env.clock(w.ticks);
    assert Validate(item.(supersedes := Some(target))) == Validate(item);
    EarlyClock(now, env.random(w.draws));
    if !env.readOnly && IsValid(item) && now > -1_000_000 {
      var id := MintId(now, env.random(w.draws)).value;
      ValidContent(item);
      Taken(w.rows, target, "");
      if HasId(w.rows, target) {
        var k := IndexOfId(w.rows, 0, target).value;
        ClearedRow(w.rows, k, if item.externalId.Some? then item.externalId.value else "", id);
      }
    }
  }

  /******* Hooks *******/

  /** A commit: readers see what was pending only if it went as intended; it may be published and still fail. */
  ghost predicate IsFlush(before: Sidecar, after: Sidecar, fault: Fault) {
    && after.pending == before.pending
    && after.visible == (if fault == Fine then before.pending else before.visible)
    && after.committed == (if fault == Refused then before.committed else before.pending)
  }

  ghost predicate EveryoneTakes(env: Surroundings, members: seq<Sidecar>) {
    forall j :: 0 <= j < |members| ==> env.faults(j, members[j].calls) == Fine
  }

  /**
   After a single write, member `i` has the item pending unless it refused it; and if any member refused
   it, nobody publishes anything, otherwise each commits once.
   */
  lemma {:induction false} SingleWriteHook(env: Surroundings, w: World, row: Row, i: nat)
    requires w.hooks.Some? && i < |w.hooks.value|
    ensures FireHook(env, w, row).hooks.Some? && |FireHook(env, w, row).hooks.value| == |w.hooks.value|
    ensures var before, after := w.hooks.value[i], FireHook(env, w, row).hooks.value[i];
            var taken := if env.faults(i, before.calls) == Fine then multiset{DocumentOf(row)} else multiset{};
            && after.pending == before.pending + taken
            && (if EveryoneTakes(env, w.hooks.value) then
                  IsFlush(before.(pending := before.pending + taken), after, env.faults(i, before.calls + 1))
                else after.committed == before.committed && after.visible == before.visible)
  {
    var members := w.hooks.value;
    assert EveryoneTakes(env, members) <==> AllSucceed(env.faults, members, OnIngest(row)) by {
      forall j | 0 <= j < |members|
        ensures CallOne(env.faults, j, members[j], OnIngest(row)).1 <==> env.faults(j, members[j].calls) == Fine
      {
      }
    }
  }

  /** The member's calls from number `first` up to number `last` go as intended. */
  ghost predicate AllFine(faults: Faults, member: nat, first: nat, last: nat) {
    forall n :: first <= n < last ==> faults(member, n) == Fine
  }

  /** What a member has after the first `k` rows, when the calls began as number `first`. */
  ghost predicate HasTaken(before: Sidecar, after: Sidecar, rows: seq<Row>, k: nat)
    requires k <= |rows|
  {
    && after.pending == before.pending + Documents(rows[..k])
    && after.committed == before.committed && after.visible == before.visible
  }

  lemma {:induction false} TakesOne(faults: Faults, member: nat, before: Sidecar, s: Sidecar, rows: seq<Row>, i: nat)
    requires i < |rows| && HasTaken(before, s, rows, i) && faults(member, s.calls) == Fine
    ensures var next := Add(faults(member, s.calls), s, rows[i]).0;
            HasTaken(before, next, rows, i + 1) && next.calls == s.calls + 1
  {
    DocumentsOfPrefix(rows, i);
  }

  /** How many rows a member takes before its first failure. */
  lemma {:induction false} RowsTaken(faults: Faults, member: nat, before: Sidecar, s: Sidecar, rows: seq<Row>, i: nat)
    returns (k: nat)
    requires i <= |rows| && HasTaken(before, s, rows, i) && s.calls == before.calls + i
    ensures i <= k <= |rows| && AllFine(faults, member, s.calls, before.calls + k)
    ensures k < |rows| ==> faults(member, before.calls + k) != Fine
    ensures var after := AddFrom(faults, member, s, rows, i).0;
            HasTaken(before, after, rows, k) && after.calls == before.calls + k + if k < |rows| then 1 else 0
    decreases |rows| - i
  {
    k := i;
    if i < |rows| && faults(member, s.calls) == Fine {
      TakesOne(faults, member, before, s, rows, i);
      k := RowsTaken(faults, member, before, Add(faults(member, s.calls), s, rows[i]).0, rows, i + 1);
    }
  }

  /** After a batch each member has the rows before its first failure pending, and commits whatever happened. */
  lemma {:induction false} BatchHook(env: Surroundings, w: World, rows: seq<Row>, i: nat) returns (k: nat)
    requires w.hooks.Some? && i < |w.hooks.value|
    ensures FireBatch(env, w, rows).hooks.Some? && |FireBatch(env, w, rows).hooks.value| == |w.hooks.value|
    ensures var before, after := w.hooks.value[i], FireBatch(env, w, rows).hooks.value[i];
            && k <= |rows| && AllFine(env.faults, i, before.calls, before.calls + k)
            && (k < |rows| ==> env.faults(i, before.calls + k) != Fine)
            && IsFlush(before.(pending := before.pending + Documents(rows[..k])), after,
                       env.faults(i, before.calls + k + if k < |rows| then 1 else 0))
  {
    var before := w.hooks.value[i];
    assert Documents(rows[..0]) == multiset{};
    k := RowsTaken(env.faults, i, before, before, rows, 0);
  }
}
