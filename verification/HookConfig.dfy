/** Merging our hook entries into an editor's JSON config, and removing them again. */
module HookConfig {
  import opened Wrappers
  import opened Text
  import opened Json
  import opened HookCommand

  /******* The entries we install *******/

  function Flat(command: string, extra: seq<Member>): Value {
    Object([Member("command", Str(command))] + extra)
  }

  function Group(matcher: Option<string>, command: string, extra: Member): Value {
    var hook := Object([Member("type", Str("command")), Member("command", Str(command)), extra]);
    var hooks := Member("hooks", Array([hook]));
    Object(if matcher.Some? then [Member("matcher", Str(matcher.value)), hooks] else [hooks])
  }

  function Timeout(seconds: real): Member {
    Member("timeout", Number(seconds))
  }

  const ASYNC := Member("async", Bool(true))

  function OurGroup(editor: Editor, event: Event, bin: string): Value {
    var command := Command(editor, event, bin);
    match editor
    case Cursor =>
      (match event
       case SessionStart => Flat(command, [Timeout(30.0)])
       case Stop => Flat(command, [Timeout(60.0), Member("loop_limit", Number(1.0))])
       case PreCompact => Flat(command, [Timeout(60.0)])
       case SessionEnd => Flat(command, [Timeout(60.0)]))
    case _ =>
      var matcher :=
        if editor.Codex? then Some("*")
        else if event.SessionStart? then Some("startup|resume|clear|compact") else None;
      Group(matcher, command,
            if event.Stop? then ASYNC else Timeout(if event.SessionStart? then 30.0 else 60.0))
  }

  /** Events are installed under these keys; Codex has no session-end event. */
  function EventKey(editor: Editor, event: Event): string {
    match event
    case SessionStart => if editor.Cursor? then "sessionStart" else "SessionStart"
    case Stop => if editor.Cursor? then "stop" else "Stop"
    case PreCompact => if editor.Cursor? then "preCompact" else "PreCompact"
    case SessionEnd => if editor.Cursor? then "sessionEnd" else "SessionEnd"
  }

  function OurEntry(editor: Editor, event: Event, bin: string): Member {
    Member(EventKey(editor, event), Array([OurGroup(editor, event, bin)]))
  }

  /** The `hooks` object of `entries`. */
  function OurHooks(editor: Editor, bin: string): seq<Member> {
    [OurEntry(editor, SessionStart, bin), OurEntry(editor, Stop, bin), OurEntry(editor, PreCompact, bin)]
    + if editor.Codex? then [] else [OurEntry(editor, SessionEnd, bin)]
  }

  /******* Which groups are ours *******/

  predicate CommandIsOurs(hook: Value) {
    var command := Field(hook, "command");
    command.Some? && command.value.Str? && IsOurs(command.value.text)
  }

  /** `group_is_ours`: one of ours among the group's commands makes the whole group ours. */
  predicate GroupIsOurs(editor: Editor, group: Value) {
    if editor.Cursor? then CommandIsOurs(group)
    else
      var hooks := Field(group, "hooks");
      hooks.Some? && hooks.value.Array?
      && exists i :: 0 <= i < |hooks.value.items| && CommandIsOurs(hooks.value.items[i])
  }

  function KeepOne(editor: Editor, group: Value): seq<Value> {
    if GroupIsOurs(editor, group) then [] else [group]
  }

  /** The groups that are not ours, in order. */
  function Foreign(editor: Editor, groups: seq<Value>): seq<Value> {
    if groups == [] then [] else KeepOne(editor, groups[0]) + Foreign(editor, groups[1..])
  }

  predicate NoneOurs(editor: Editor, groups: seq<Value>) {
    forall i :: 0 <= i < |groups| ==> !GroupIsOurs(editor, groups[i])
  }

  /** `has_ours`. */
  predicate HasOurs(editor: Editor, existing: Value) {
    var hooks := Field(existing, "hooks");
    hooks.Some? && hooks.value.Object?
    && exists i :: 0 <= i < |hooks.value.members| && HoldsOurs(editor, hooks.value.members[i].value)
  }

  predicate HoldsOurs(editor: Editor, value: Value) {
    value.Array? && !NoneOurs(editor, value.items)
  }

  /******* Merging *******/

  function ArrayAt(members: seq<Member>, key: string): seq<Value> {
    match Get(members, key)
    case Some(Array(items)) => items
    case _ => []
  }

  function MergeOne(editor: Editor, hooks: seq<Member>, entry: Member): seq<Member>
    requires entry.value.Array?
  {
    Insert(hooks, entry.key, Array(Foreign(editor, ArrayAt(hooks, entry.key)) + entry.value.items))
  }

  predicate AreEntries(ours: seq<Member>) {
    Distinct(ours) && forall i :: 0 <= i < |ours| ==> ours[i].value.Array? && |ours[i].value.items| == 1
  }

  /** The entries from `i` on merged into `hooks`, in order. */
  function MergeFrom(editor: Editor, hooks: seq<Member>, ours: seq<Member>, i: nat): seq<Member>
    requires i <= |ours| && AreEntries(ours)
    decreases |ours| - i
  {
    if i == |ours| then hooks else MergeFrom(editor, MergeOne(editor, hooks, ours[i]), ours, i + 1)
  }

  /** The existing `hooks` object; anything else counts as an empty one. */
  function BaseHooks(members: seq<Member>): seq<Member> {
    match Get(members, "hooks")
    case Some(Object(hooks)) => hooks
    case _ => []
  }

  function BaseMembers(editor: Editor, existing: Value): seq<Member> {
    var members := if existing.Object? then existing.members else [];
    if editor.Cursor? && Get(members, "version").None? then Insert(members, "version", Number(1.0)) else members
  }

  function Merged(editor: Editor, existing: Value, bin: string): Value
    requires AreEntries(OurHooks(editor, bin))
  {
    var members := BaseMembers(editor, existing);
    Object(Insert(members, "hooks", Object(MergeFrom(editor, BaseHooks(members), OurHooks(editor, bin), 0))))
  }

  /** `merge`. */
  method Merge(editor: Editor, existing: Value, bin: string) returns (result: Value)
    ensures AreEntries(OurHooks(editor, bin)) && result == Merged(editor, existing, bin)
  {
    EntriesAreEntries(editor, bin);
    var members := if existing.Object? then existing.members else [];
    if editor.Cursor? && Get(members, "version").None? {
      members := Insert(members, "version", Number(1.0));
    }
    var ours := OurHooks(editor, bin);
    var hooks := match Get(members, "hooks") case Some(Object(present)) => present case _ => [];
    var i := 0;
    while i < |ours|
      invariant 0 <= i <= |ours|
      invariant MergeFrom(editor, hooks, ours, i) == MergeFrom(editor, BaseHooks(members), ours, 0)
    {
      var entry := ours[i];
      var groups := match Get(hooks, entry.key) case Some(Array(items)) => items case _ => [];
      var kept := Retain(editor, groups);
      hooks := Insert(hooks, entry.key, Array(kept + entry.value.items));
      i := i + 1;
    }
    result := Object(Insert(members, "hooks", Object(hooks)));
  }

  lemma {:induction false} ForeignStep(editor: Editor, kept: seq<Value>, groups: seq<Value>, i: nat)
    requires i < |groups|
    ensures kept + Foreign(editor, groups[i..])
         == (kept + KeepOne(editor, groups[i])) + Foreign(editor, groups[i + 1..])
  {
    var tail := groups[i..];
    assert tail[1..] == groups[i + 1..];
    AppendAssociates(kept, KeepOne(editor, tail[0]), Foreign(editor, tail[1..]));
  }

  /** The `filter` both operations run over a group list. */
  method Retain(editor: Editor, groups: seq<Value>) returns (kept: seq<Value>)
    ensures kept == Foreign(editor, groups)
  {
    kept := [];
    var i := 0;
    ghost var all := Foreign(editor, groups);
    assert groups[0..] == groups;
    while i < |groups|
      invariant 0 <= i <= |groups|
      invariant kept + Foreign(editor, groups[i..]) == all
    {
      ForeignStep(editor, kept, groups, i);
      kept := kept + KeepOne(editor, groups[i]);
      i := i + 1;
    }
  }

  /******* Removing *******/

  function StripOne(editor: Editor, member: Member): seq<Member> {
    if !member.value.Array? then [member]
    else
      var kept := Foreign(editor, member.value.items);
      if kept == [] then [] else [Member(member.key, Array(kept))]
  }

  /** The hooks object without our groups and without the arrays that leaves empty. */
  function Strip(editor: Editor, hooks: seq<Member>): seq<Member> {
    if hooks == [] then [] else StripOne(editor, hooks[0]) + Strip(editor, hooks[1..])
  }

  function Removed(editor: Editor, existing: Value): Value {
    if !existing.Object? then existing
    else
      match Get(existing.members, "hooks")
      case Some(Object(hooks)) =>
        var stripped := Strip(editor, hooks);
        if editor.Cursor? || stripped != [] then Object(Insert(existing.members, "hooks", Object(stripped)))
        else Object(ShiftRemove(existing.members, "hooks"))
      case _ => existing
  }

  /** Maps never hold a key twice; only the two objects that are edited matter here. */
  predicate WellFormed(existing: Value) {
    existing.Object? ==> Distinct(existing.members) && Distinct(BaseHooks(existing.members))
  }

  lemma {:induction false} EntriesAreEntries(editor: Editor, bin: string)
    ensures AreEntries(OurHooks(editor, bin))
  {
    assert "sessionStart"[0] == 's' && "stop"[1] == 't' && "preCompact"[0] == 'p' && |"sessionEnd"| == 10;
    assert "SessionStart"[0] == 'S' && "Stop"[1] == 't' && "PreCompact"[0] == 'P' && |"SessionEnd"| == 10;
    assert |"sessionStart"| == |"SessionStart"| == 12 && |"stop"| == |"Stop"| == 4;
  }

  predicate KeyAbsent(members: seq<Member>, key: string) {
    forall k :: 0 <= k < |members| ==> members[k].key != key
  }

  /** One turn of the loop in `remove`, at the first member of what is still to be visited. */
  lemma {:induction false} StripStep(done: seq<Member>, member: Member, after: seq<Member>, value: Value)
    requires KeyAbsent(done, member.key)
    ensures var current := done + ([member] + after);
            && Get(current, member.key) == Some(member.value)
            && Insert(current, member.key, value) == (done + [Member(member.key, value)]) + after
            && ShiftRemove(current, member.key) == done + after
  {
    assert done + ([member] + after) == done + [Member(member.key, member.value)] + after;
    GetAppend(done, [member] + after, member.key);
    InsertPresent(done, member.value, after, member.key, value);
  }

  /** The effect of one turn: the visited member is replaced, dropped, or left as it is. */
  method StripMember(editor: Editor, current: seq<Member>, ghost done: seq<Member>, member: Member,
                     ghost after: seq<Member>)
    returns (next: seq<Member>)
    requires current == done + ([member] + after) && KeyAbsent(done, member.key)
    ensures next == (done + StripOne(editor, member)) + after
  {
    StripStep(done, member, after, Null);
    match Get(current, member.key)
    case Some(Array(groups)) =>
      var retained := Retain(editor, groups);
      StripStep(done, member, after, Array(retained));
      if retained == [] {
        next := ShiftRemove(current, member.key);
        assert done + [] == done;
      } else {
        next := Insert(current, member.key, Array(retained));
      }
    case _ =>
      next := current;
      AppendAssociates(done, [member], after);
  }

  lemma {:induction false} StripFrom(editor: Editor, done: seq<Member>, hooks: seq<Member>, i: nat)
    requires i < |hooks|
    ensures hooks[i..] == [hooks[i]] + hooks[i + 1..]
    ensures done + Strip(editor, hooks[i..])
         == (done + StripOne(editor, hooks[i])) + Strip(editor, hooks[i + 1..])
  {
    var tail := hooks[i..];
    assert tail[1..] == hooks[i + 1..];
    AppendAssociates(done, StripOne(editor, tail[0]), Strip(editor, tail[1..]));
  }

  lemma {:induction false} StripOneKeys(editor: Editor, done: seq<Member>, member: Member, other: string)
    requires KeyAbsent(done, other) && member.key != other
    ensures KeyAbsent(done + StripOne(editor, member), other)
  {
  }

  /** The loop in `remove`: every key of the object in turn, editing it in place. */
  method StripHooks(editor: Editor, hooks: seq<Member>) returns (current: seq<Member>)
    requires Distinct(hooks)
    ensures current == Strip(editor, hooks)
  {
    current := hooks;
    ghost var all, done := Strip(editor, hooks), [];
    var i := 0;
    assert hooks[0..] == hooks;
    while i < |hooks|
      invariant 0 <= i <= |hooks| && current == done + hooks[i..]
      invariant forall j :: i <= j < |hooks| ==> KeyAbsent(done, hooks[j].key)
      invariant done + Strip(editor, hooks[i..]) == all
    {
      StripFrom(editor, done, hooks, i);
      current := StripMember(editor, current, done, hooks[i], hooks[i + 1..]);
      forall j | i < j < |hooks| ensures KeyAbsent(done + StripOne(editor, hooks[i]), hooks[j].key) {
        StripOneKeys(editor, done, hooks[i], hooks[j].key);
      }
      done := done + StripOne(editor, hooks[i]);
      i := i + 1;
    }
  }

  /** `remove`. */
  method Remove(editor: Editor, existing: Value) returns (result: Value)
    requires WellFormed(existing)
    ensures result == Removed(editor, existing)
  {
    if !existing.Object? { return existing; }
    match Get(existing.members, "hooks")
    case Some(Object(hooks)) =>
      var stripped := StripHooks(editor, hooks);
      if editor.Cursor? || stripped != [] {
        result := Object(Insert(existing.members, "hooks", Object(stripped)));
      } else {
        result := Object(ShiftRemove(existing.members, "hooks"));
      }
    case _ => result := existing;
  }

  /******* Facts about filtering *******/

  lemma {:induction false} ForeignAppend(editor: Editor, a: seq<Value>, b: seq<Value>)
    ensures Foreign(editor, a + b) == Foreign(editor, a) + Foreign(editor, b)
  {
    if a == [] {
      assert a + b == b;
    } else {
      assert (a + b)[1..] == a[1..] + b;
      ForeignAppend(editor, a[1..], b);
      AppendAssociates(KeepOne(editor, a[0]), Foreign(editor, a[1..]), Foreign(editor, b));
    }
  }

  lemma {:induction false} ForeignIsShorter(editor: Editor, groups: seq<Value>)
    ensures |Foreign(editor, groups)| <= |groups|
  {
    if groups != [] { ForeignIsShorter(editor, groups[1..]); }
  }

  lemma {:induction false} ForeignHasNoneOurs(editor: Editor, groups: seq<Value>)
    ensures NoneOurs(editor, Foreign(editor, groups))
  {
    if groups != [] {
      ForeignHasNoneOurs(editor, groups[1..]);
    }
  }

  lemma {:induction false} ForeignFixed(editor: Editor, groups: seq<Value>)
    ensures NoneOurs(editor, groups) <==> Foreign(editor, groups) == groups
  {
    ForeignHasNoneOurs(editor, groups);
    if groups != [] && NoneOurs(editor, groups) {
      assert groups == [groups[0]] + groups[1..];
      assert forall i :: 0 <= i < |groups[1..]| ==> groups[1..][i] == groups[i + 1];
      ForeignFixed(editor, groups[1..]);
    }
  }

  lemma {:induction false} ForeignOne(editor: Editor, group: Value)
    ensures Foreign(editor, [group]) == KeepOne(editor, group)
  {
    assert [group][1..] == [];
  }

  /** What filtering leaves of a merged list: what it leaves of the original, and our group if it is not recognised. */
  lemma {:induction false} ForeignOfMerged(editor: Editor, groups: seq<Value>, group: Value)
    ensures Foreign(editor, Foreign(editor, groups) + [group]) == Foreign(editor, groups) + KeepOne(editor, group)
  {
    ForeignHasNoneOurs(editor, groups);
    ForeignFixed(editor, Foreign(editor, groups));
    ForeignAppend(editor, Foreign(editor, groups), [group]);
    ForeignOne(editor, group);
  }

  lemma {:induction false} OurHookIsOurs(hook: Value, n: nat, command: string)
    requires hook.Object? && n < |hook.members| && hook.members[n] == Member("command", Str(command))
    requires forall k :: 0 <= k < n ==> hook.members[k].key != "command"
    ensures CommandIsOurs(hook) <==> IsOurs(command)
  {
    GetNth(hook.members, n);
  }

  /** We recognise a group we install exactly when the binary path has no double quote. */
  lemma {:induction false} OurGroupIsOurs(editor: Editor, event: Event, bin: string)
    ensures GroupIsOurs(editor, OurGroup(editor, event, bin)) <==> '"' !in bin
  {
    var command := Command(editor, event, bin);
    CommandRoundTrip(editor, event, bin);
    var group := OurGroup(editor, event, bin);
    if editor.Cursor? {
      OurHookIsOurs(group, 0, command);
    } else {
      assert "type"[0] != "command"[0] && "matcher"[0] != "hooks"[0];
      var last := |group.members| - 1;
      GetNth(group.members, last);
      OurHookIsOurs(group.members[last].value.items[0], 1, command);
    }
  }

  predicate AllRecognised(editor: Editor, ours: seq<Member>, recognised: bool)
    requires AreEntries(ours)
  {
    forall i :: 0 <= i < |ours| ==> (GroupIsOurs(editor, ours[i].value.items[0]) <==> recognised)
  }

  lemma {:induction false} OurHooksRecognised(editor: Editor, bin: string)
    ensures AreEntries(OurHooks(editor, bin)) && AllRecognised(editor, OurHooks(editor, bin), '"' !in bin)
  {
    EntriesAreEntries(editor, bin);
    OurGroupIsOurs(editor, SessionStart, bin);
    OurGroupIsOurs(editor, Stop, bin);
    OurGroupIsOurs(editor, PreCompact, bin);
    OurGroupIsOurs(editor, SessionEnd, bin);
  }

  /******* What merging leaves under each key *******/

  lemma {:induction false} MergeOneGet(editor: Editor, hooks: seq<Member>, entry: Member, key: string)
    requires entry.value.Array?
    ensures Get(MergeOne(editor, hooks, entry), key)
         == if key == entry.key then Some(Array(Foreign(editor, ArrayAt(hooks, key)) + entry.value.items))
            else Get(hooks, key)
  {
    GetInsert(hooks, entry.key, Array(Foreign(editor, ArrayAt(hooks, entry.key)) + entry.value.items), key);
  }

  lemma {:induction false} MergeFromOther(editor: Editor, hooks: seq<Member>, ours: seq<Member>, i: nat, key: string)
    requires i <= |ours| && AreEntries(ours) && forall j :: i <= j < |ours| ==> ours[j].key != key
    ensures Get(MergeFrom(editor, hooks, ours, i), key) == Get(hooks, key)
    decreases |ours| - i
  {
    if i < |ours| {
      MergeOneGet(editor, hooks, ours[i], key);
      MergeFromOther(editor, MergeOne(editor, hooks, ours[i]), ours, i + 1, key);
    }
  }

  lemma {:induction false} MergeFromOurs(editor: Editor, hooks: seq<Member>, ours: seq<Member>, i: nat, j: nat)
    requires i <= j < |ours| && AreEntries(ours)
    ensures Get(MergeFrom(editor, hooks, ours, i), ours[j].key)
         == Some(Array(Foreign(editor, ArrayAt(hooks, ours[j].key)) + ours[j].value.items))
    decreases |ours| - i
  {
    var key := ours[j].key;
    MergeOneGet(editor, hooks, ours[i], key);
    var next := MergeOne(editor, hooks, ours[i]);
    if i == j {
      MergeFromOther(editor, next, ours, i + 1, key);
    } else {
      MergeFromOurs(editor, next, ours, i + 1, j);
    }
  }

  /** `first` then the keys of `second` it lacks, in order. */
  function WithMissing(first: seq<string>, second: seq<Member>, i: nat): seq<string>
    requires i <= |second|
    decreases |second| - i
  {
    if i == |second| then first
    else WithMissing(if second[i].key in first then first else first + [second[i].key], second, i + 1)
  }

  lemma {:induction false} KeysMeaning(members: seq<Member>, key: string)
    ensures HasKey(members, key) <==> key in Keys(members)
  {
    if HasKey(members, key) {
      var i :| 0 <= i < |members| && members[i].key == key;
      assert Keys(members)[i] == key;
    }
  }

  lemma {:induction false} MergeFromKeys(editor: Editor, hooks: seq<Member>, ours: seq<Member>, i: nat)
    requires i <= |ours| && AreEntries(ours)
    ensures Keys(MergeFrom(editor, hooks, ours, i)) == WithMissing(Keys(hooks), ours, i)
    decreases |ours| - i
  {
    if i < |ours| {
      InsertKeys(hooks, ours[i].key, Array(Foreign(editor, ArrayAt(hooks, ours[i].key)) + ours[i].value.items));
      KeysMeaning(hooks, ours[i].key);
      MergeFromKeys(editor, MergeOne(editor, hooks, ours[i]), ours, i + 1);
    }
  }

  /** The hooks object of a config, empty when there is none. */
  function HooksOf(config: Value): seq<Member> {
    if config.Object? then BaseHooks(config.members) else []
  }

  lemma {:induction false} MergedHooks(editor: Editor, existing: Value, bin: string)
    requires AreEntries(OurHooks(editor, bin))
    ensures HooksOf(Merged(editor, existing, bin)) == MergeFrom(editor, HooksOf(existing), OurHooks(editor, bin), 0)
    ensures HooksOf(existing) == BaseHooks(BaseMembers(editor, existing))
  {
    var members := BaseMembers(editor, existing);
    var original := if existing.Object? then existing.members else [];
    assert "hooks"[0] != "version"[0];
    GetInsert(original, "version", Number(1.0), "hooks");
    GetInsert(members, "hooks",
              Object(MergeFrom(editor, BaseHooks(members), OurHooks(editor, bin), 0)), "hooks");
    assert Get([], "hooks") == None;
  }

  /**
   What a merge leaves: under each of our event keys the foreign groups in their order, then our one
   group last; under every other key what was there; and the keys in their old order with the missing
   ones of ours behind. Holds whatever the config and the path.
   */
  lemma {:induction false} MergeKeepsForeign(editor: Editor, existing: Value, bin: string)
    ensures AreEntries(OurHooks(editor, bin))
    ensures var before, after := HooksOf(existing), HooksOf(Merged(editor, existing, bin));
            var ours := OurHooks(editor, bin);
            && (forall j :: 0 <= j < |ours| ==>
                  Get(after, ours[j].key)
                  == Some(Array(Foreign(editor, ArrayAt(before, ours[j].key)) + [ours[j].value.items[0]])))
            && (forall key :: (forall j :: 0 <= j < |ours| ==> ours[j].key != key) ==>
                  Get(after, key) == Get(before, key))
            && Keys(after) == WithMissing(Keys(before), ours, 0)
  {
    EntriesAreEntries(editor, bin);
    MergedHooks(editor, existing, bin);
    var before, ours := HooksOf(existing), OurHooks(editor, bin);
    forall j | 0 <= j < |ours|
      ensures Get(MergeFrom(editor, before, ours, 0), ours[j].key)
           == Some(Array(Foreign(editor, ArrayAt(before, ours[j].key)) + [ours[j].value.items[0]]))
    {
      MergeFromOurs(editor, before, ours, 0, j);
      assert ours[j].value.items == [ours[j].value.items[0]];
    }
    forall key | forall j :: 0 <= j < |ours| ==> ours[j].key != key
      ensures Get(MergeFrom(editor, before, ours, 0), key) == Get(before, key)
    {
      MergeFromOther(editor, before, ours, 0, key);
    }
    MergeFromKeys(editor, before, ours, 0);
  }

  /******* Merging twice *******/

  /** What a merge would write under the entry's key is already there. */
  predicate SettledAt(editor: Editor, hooks: seq<Member>, entry: Member)
    requires entry.value.Array?
  {
    Get(hooks, entry.key) == Some(Array(Foreign(editor, ArrayAt(hooks, entry.key)) + entry.value.items))
  }

  lemma {:induction false} MergeSettled(editor: Editor, hooks: seq<Member>, ours: seq<Member>, i: nat)
    requires i <= |ours| && AreEntries(ours)
    requires forall j :: i <= j < |ours| ==> SettledAt(editor, hooks, ours[j])
    ensures MergeFrom(editor, hooks, ours, i) == hooks
    decreases |ours| - i
  {
    if i < |ours| {
      assert SettledAt(editor, hooks, ours[i]);
      InsertSame(hooks, ours[i].key, Array(Foreign(editor, ArrayAt(hooks, ours[i].key)) + ours[i].value.items));
      MergeSettled(editor, hooks, ours, i + 1);
    }
  }

  lemma {:induction false} MergeFromTwice(editor: Editor, hooks: seq<Member>, ours: seq<Member>)
    requires AreEntries(ours) && AllRecognised(editor, ours, true)
    ensures MergeFrom(editor, MergeFrom(editor, hooks, ours, 0), ours, 0) == MergeFrom(editor, hooks, ours, 0)
  {
    var merged := MergeFrom(editor, hooks, ours, 0);
    forall j | 0 <= j < |ours| ensures SettledAt(editor, merged, ours[j]) {
      var group := ours[j].value.items[0];
      MergeFromOurs(editor, hooks, ours, 0, j);
      assert ours[j].value.items == [group];
      ForeignOfMerged(editor, ArrayAt(hooks, ours[j].key), group);
      assert Foreign(editor, ArrayAt(hooks, ours[j].key)) + [] == Foreign(editor, ArrayAt(hooks, ours[j].key));
    }
    MergeSettled(editor, merged, ours, 0);
  }

  /** A group of ours that is not recognised is added once more by every merge. */
  lemma {:induction false} MergeFromGrows(editor: Editor, hooks: seq<Member>, ours: seq<Member>)
    requires AreEntries(ours) && AllRecognised(editor, ours, false) && ours != []
    ensures MergeFrom(editor, MergeFrom(editor, hooks, ours, 0), ours, 0) != MergeFrom(editor, hooks, ours, 0)
  {
    var merged, key, items := MergeFrom(editor, hooks, ours, 0), ours[0].key, ours[0].value.items;
    var groups := ArrayAt(hooks, key);
    MergeFromOurs(editor, hooks, ours, 0, 0);
    MergeFromOurs(editor, merged, ours, 0, 0);
    assert items == [items[0]];
    ForeignOfMerged(editor, groups, items[0]);
    var once, twice := Foreign(editor, groups) + items, Foreign(editor, groups) + items + items;
    assert Get(merged, key) == Some(Array(once));
    assert Get(MergeFrom(editor, merged, ours, 0), key) == Some(Array(twice));
    assert |twice| == |once| + 1;
  }

  lemma {:induction false} InsertTwice(members: seq<Member>, key: string, first: Value, second: Value)
    ensures Insert(Insert(members, key, first), key, second) == Insert(members, key, second)
    ensures ShiftRemove(Insert(members, key, first), key) == ShiftRemove(members, key)
  {
    if members == [] {
      assert [Member(key, first)][1..] == [];
    } else if members[0].key == key {
      assert ([Member(key, first)] + members[1..])[1..] == members[1..];
    } else {
      var rest := Insert(members[1..], key, first);
      InsertTwice(members[1..], key, first, second);
      assert ([members[0]] + rest)[1..] == rest;
    }
  }

  lemma {:induction false} MergedMembers(editor: Editor, existing: Value, bin: string)
    requires AreEntries(OurHooks(editor, bin))
    ensures BaseMembers(editor, Merged(editor, existing, bin)) == Merged(editor, existing, bin).members
  {
    var original := if existing.Object? then existing.members else [];
    var members := BaseMembers(editor, existing);
    var hooks := Object(MergeFrom(editor, BaseHooks(members), OurHooks(editor, bin), 0));
    assert "hooks"[0] != "version"[0];
    GetInsert(members, "hooks", hooks, "version");
    GetInsert(original, "version", Number(1.0), "version");
  }

  /** Merging again with the same path is a no-op exactly when the path has no double quote. */
  lemma {:induction false} MergeIsIdempotent(editor: Editor, existing: Value, bin: string)
    ensures AreEntries(OurHooks(editor, bin))
    ensures Merged(editor, Merged(editor, existing, bin), bin) == Merged(editor, existing, bin) <==> '"' !in bin
  {
    OurHooksRecognised(editor, bin);
    var ours, once := OurHooks(editor, bin), Merged(editor, existing, bin);
    MergedMembers(editor, existing, bin);
    MergedHooks(editor, existing, bin);
    MergedHooks(editor, once, bin);
    var merged := HooksOf(once);
    var twice := MergeFrom(editor, merged, ours, 0);
    if '"' !in bin {
      MergeFromTwice(editor, HooksOf(existing), ours);
      var members := BaseMembers(editor, existing);
      InsertTwice(members, "hooks", Object(merged), Object(merged));
    } else {
      MergeFromGrows(editor, HooksOf(existing), ours);
    }
  }

  /******* Removing *******/

  lemma {:induction false} StripHasNoneOurs(editor: Editor, hooks: seq<Member>)
    ensures forall i :: 0 <= i < |Strip(editor, hooks)| ==>
              !HoldsOurs(editor, Strip(editor, hooks)[i].value)
              && Strip(editor, hooks)[i].value != Array([])
  {
    if hooks != [] {
      StripHasNoneOurs(editor, hooks[1..]);
      if hooks[0].value.Array? { ForeignHasNoneOurs(editor, hooks[0].value.items); }
      var head, rest := StripOne(editor, hooks[0]), Strip(editor, hooks[1..]);
      var all := head + rest;
      forall i | 0 <= i < |all| ensures !HoldsOurs(editor, all[i].value) && all[i].value != Array([]) {
        if i >= |head| { assert all[i] == rest[i - |head|]; }
      }
    }
  }

  /** After a removal none of our entries is left, whatever the config was. */
  lemma {:induction false} RemoveLeavesNoneOurs(editor: Editor, existing: Value)
    requires WellFormed(existing)
    ensures !HasOurs(editor, Removed(editor, existing))
  {
    if existing.Object? {
      match Get(existing.members, "hooks")
      case Some(Object(hooks)) =>
        var stripped := Strip(editor, hooks);
        StripHasNoneOurs(editor, hooks);
        if editor.Cursor? || stripped != [] {
          GetInsert(existing.members, "hooks", Object(stripped), "hooks");
        } else {
          RemovedKeyIsGone(existing.members, "hooks");
        }
      case _ =>
    }
  }

  lemma {:induction false} RemovedKeyIsGone(members: seq<Member>, key: string)
    requires Distinct(members)
    ensures Get(ShiftRemove(members, key), key) == None
  {
    GetMeaning(members, key);
    GetMeaning(ShiftRemove(members, key), key);
    if HasKey(members, key) {
      var before, after := SplitAt(members, key);
      InsertPresent(before, Get(members, key).value, after, key, Null);
      assert members[|before|].key == key;
      forall k | 0 <= k < |before + after| ensures (before + after)[k].key != key {
        if k < |before| {
          assert before[k] == members[k];
        } else {
          assert (before + after)[k] == members[k + 1];
        }
      }
    } else {
      ShiftRemoveAbsent(members, key);
    }
  }

  lemma {:induction false} ShiftRemoveAbsent(members: seq<Member>, key: string)
    requires !HasKey(members, key)
    ensures ShiftRemove(members, key) == members
  {
    InsertAppend(members, [], key, Null);
    assert members + [] == members;
  }

  /** No array of the object is empty or holds a group of ours. */
  predicate Clean(editor: Editor, hooks: seq<Member>) {
    forall i :: 0 <= i < |hooks| && hooks[i].value.Array? ==>
      hooks[i].value.items != [] && NoneOurs(editor, hooks[i].value.items)
  }

  lemma {:induction false} StripIsShorter(editor: Editor, hooks: seq<Member>)
    ensures |Strip(editor, hooks)| <= |hooks|
  {
    if hooks != [] { StripIsShorter(editor, hooks[1..]); }
  }

  lemma {:induction false} StripOneFixed(editor: Editor, member: Member)
    ensures StripOne(editor, member) == [member] <==>
              (member.value.Array? ==> member.value.items != [] && NoneOurs(editor, member.value.items))
  {
    if member.value.Array? { ForeignFixed(editor, member.value.items); }
  }

  lemma {:induction false} StripFixed(editor: Editor, hooks: seq<Member>)
    ensures Strip(editor, hooks) == hooks <==> Clean(editor, hooks)
  {
    if hooks != [] {
      var first, rest := hooks[0], hooks[1..];
      var head, tail := StripOne(editor, first), Strip(editor, rest);
      StripOneFixed(editor, first);
      StripFixed(editor, rest);
      StripIsShorter(editor, rest);
      assert hooks == [first] + rest;
      CleanCons(editor, hooks);
      PartsAreEqual(head, tail, first, rest);
    }
  }

  lemma {:induction false} PartsAreEqual<T>(head: seq<T>, tail: seq<T>, first: T, rest: seq<T>)
    requires |head| <= 1 && |tail| <= |rest|
    ensures head + tail == [first] + rest <==> head == [first] && tail == rest
  {
    if head + tail == [first] + rest {
      assert |head + tail| == |head| + |tail|;
      assert head == [(head + tail)[0]] && tail == (head + tail)[1..];
    }
  }

  lemma {:induction false} CleanCons(editor: Editor, hooks: seq<Member>)
    requires hooks != []
    ensures Clean(editor, hooks) <==> Clean(editor, [hooks[0]]) && Clean(editor, hooks[1..])
  {
    var one, rest := [hooks[0]], hooks[1..];
    assert one[0] == hooks[0];
    assert forall i :: 0 <= i < |rest| ==> rest[i] == hooks[i + 1];
    assert forall i :: 1 <= i < |hooks| ==> hooks[i] == rest[i - 1];
  }

  predicate ArrayOrAbsent(hooks: seq<Member>, key: string) {
    match Get(hooks, key)
    case None => true
    case Some(value) => value.Array?
  }

  /** Removal cannot tell a merge of a recognised group from no merge, unless it replaced a non-array. */
  lemma {:induction false} StripMergeOne(editor: Editor, hooks: seq<Member>, key: string, group: Value)
    requires GroupIsOurs(editor, group) && ArrayOrAbsent(hooks, key)
    ensures Strip(editor, MergeOne(editor, hooks, Member(key, Array([group])))) == Strip(editor, hooks)
  {
    var items := Foreign(editor, ArrayAt(hooks, key)) + [group];
    ForeignOfMerged(editor, ArrayAt(hooks, key), group);
    assert Foreign(editor, items) == Foreign(editor, ArrayAt(hooks, key));
    if hooks == [] {
      assert [Member(key, Array(items))][1..] == [];
    } else if hooks[0].key == key {
      assert ([Member(key, Array(items))] + hooks[1..])[1..] == hooks[1..];
    } else {
      var rest := MergeOne(editor, hooks[1..], Member(key, Array([group])));
      StripMergeOne(editor, hooks[1..], key, group);
      assert ([hooks[0]] + rest)[1..] == rest;
    }
  }

  lemma {:induction false} StripMergeFrom(editor: Editor, hooks: seq<Member>, ours: seq<Member>, i: nat)
    requires i <= |ours| && AreEntries(ours) && AllRecognised(editor, ours, true)
    requires forall j :: i <= j < |ours| ==> ArrayOrAbsent(hooks, ours[j].key)
    ensures Strip(editor, MergeFrom(editor, hooks, ours, i)) == Strip(editor, hooks)
    decreases |ours| - i
  {
    if i < |ours| {
      var key, group := ours[i].key, ours[i].value.items[0];
      assert ours[i] == Member(key, Array([group]));
      var next := MergeOne(editor, hooks, ours[i]);
      StripMergeOne(editor, hooks, key, group);
      forall j | i < j < |ours| ensures ArrayOrAbsent(next, ours[j].key) {
        MergeOneGet(editor, hooks, ours[i], ours[j].key);
      }
      StripMergeFrom(editor, next, ours, i + 1);
    }
  }

  /** What removal leaves under one key. */
  lemma {:induction false} StripGet(editor: Editor, hooks: seq<Member>, key: string)
    requires Distinct(hooks)
    ensures Get(Strip(editor, hooks), key)
         == (match Get(hooks, key)
             case Some(Array(items)) =>
               if Foreign(editor, items) == [] then None else Some(Array(Foreign(editor, items)))
             case other => other)
  {
    if hooks != [] {
      var head, rest := StripOne(editor, hooks[0]), Strip(editor, hooks[1..]);
      assert forall i :: 0 <= i < |hooks[1..]| ==> hooks[1..][i] == hooks[i + 1];
      StripGet(editor, hooks[1..], key);
      if hooks[0].key == key { GetMeaning(hooks[1..], key); }
      if head == [] {
        assert head + rest == rest;
      } else {
        assert (head + rest)[0] == head[0] && (head + rest)[1..] == rest;
      }
    }
  }

  /******* Removal undoes a merge, exactly when it can *******/

  lemma {:induction false} MergeFromDistinct(editor: Editor, hooks: seq<Member>, ours: seq<Member>, i: nat)
    requires i <= |ours| && AreEntries(ours) && Distinct(hooks)
    ensures Distinct(MergeFrom(editor, hooks, ours, i))
    decreases |ours| - i
  {
    if i < |ours| {
      InsertDistinct(hooks, ours[i].key, Array(Foreign(editor, ArrayAt(hooks, ours[i].key)) + ours[i].value.items));
      MergeFromDistinct(editor, MergeOne(editor, hooks, ours[i]), ours, i + 1);
    }
  }

  /** Every event key of ours is absent or holds an array, and no array is empty or holds a group of ours. */
  predicate HooksRestorable(editor: Editor, hooks: seq<Member>, ours: seq<Member>) {
    Clean(editor, hooks) && forall j :: 0 <= j < |ours| ==> ArrayOrAbsent(hooks, ours[j].key)
  }

  /** A value that is not an array, under one of our keys, is replaced by the merge and dropped by the removal. */
  lemma {:induction false} NonArrayIsLost(editor: Editor, hooks: seq<Member>, ours: seq<Member>, j: nat)
    requires AreEntries(ours) && AllRecognised(editor, ours, true) && Distinct(hooks)
    requires j < |ours| && !ArrayOrAbsent(hooks, ours[j].key)
    ensures Get(Strip(editor, MergeFrom(editor, hooks, ours, 0)), ours[j].key) == None
  {
    var key, group := ours[j].key, ours[j].value.items[0];
    assert ours[j].value.items == [group];
    MergeFromOurs(editor, hooks, ours, 0, j);
    MergeFromDistinct(editor, hooks, ours, 0);
    StripGet(editor, MergeFrom(editor, hooks, ours, 0), key);
    ForeignOfMerged(editor, [], group);
    assert ArrayAt(hooks, key) == [] && Foreign(editor, []) + [group] == [group];
  }

  /** For the hooks object alone. */
  lemma {:induction false} StripUndoesMergeFrom(editor: Editor, hooks: seq<Member>, ours: seq<Member>)
    requires AreEntries(ours) && AllRecognised(editor, ours, true) && Distinct(hooks)
    ensures Strip(editor, MergeFrom(editor, hooks, ours, 0)) == hooks <==> HooksRestorable(editor, hooks, ours)
  {
    if j :| 0 <= j < |ours| && !ArrayOrAbsent(hooks, ours[j].key) {
      NonArrayIsLost(editor, hooks, ours, j);
    } else {
      StripMergeFrom(editor, hooks, ours, 0);
      StripFixed(editor, hooks);
    }
  }

  /** An unrecognised group of ours survives the removal. */
  lemma {:induction false} StripKeepsUnrecognised(editor: Editor, hooks: seq<Member>, ours: seq<Member>)
    requires AreEntries(ours) && AllRecognised(editor, ours, false) && ours != [] && Distinct(hooks)
    ensures var stripped := Strip(editor, MergeFrom(editor, hooks, ours, 0));
            stripped != hooks && stripped != []
  {
    var merged, key, group := MergeFrom(editor, hooks, ours, 0), ours[0].key, ours[0].value.items[0];
    var groups := ArrayAt(hooks, key);
    assert ours[0].value.items == [group];
    MergeFromOurs(editor, hooks, ours, 0, 0);
    MergeFromDistinct(editor, hooks, ours, 0);
    StripGet(editor, merged, key);
    ForeignOfMerged(editor, groups, group);
    var left := Foreign(editor, groups) + [group];
    assert Get(Strip(editor, merged), key) == Some(Array(left));
    assert Foreign(editor, left) == left && |left| == |Foreign(editor, groups)| + 1;
  }

  /** When removing what a merge added gives the config back. */
  predicate Restorable(editor: Editor, existing: Value, ours: seq<Member>) {
    && existing.Object?
    && (editor.Cursor? ==> Get(existing.members, "version").Some?)
    && match Get(existing.members, "hooks")
       case None => !editor.Cursor?
       case Some(Object(hooks)) => (editor.Cursor? || hooks != []) && HooksRestorable(editor, hooks, ours)
       case Some(_) => false
  }

  /** Removal after a merge, in terms of the members the merge started from. */
  lemma {:induction false} RemovedMerged(editor: Editor, existing: Value, bin: string)
    requires AreEntries(OurHooks(editor, bin))
    ensures var members := BaseMembers(editor, existing);
            var stripped := Strip(editor, MergeFrom(editor, BaseHooks(members), OurHooks(editor, bin), 0));
            Removed(editor, Merged(editor, existing, bin))
            == if editor.Cursor? || stripped != [] then Object(Insert(members, "hooks", Object(stripped)))
               else Object(ShiftRemove(members, "hooks"))
  {
    var members := BaseMembers(editor, existing);
    var merged := MergeFrom(editor, BaseHooks(members), OurHooks(editor, bin), 0);
    GetInsert(members, "hooks", Object(merged), "hooks");
    InsertTwice(members, "hooks", Object(merged), Object(Strip(editor, merged)));
  }

  lemma {:induction false} InsertIsSame(members: seq<Member>, key: string, value: Value)
    ensures Insert(members, key, value) == members <==> Get(members, key) == Some(value)
  {
    GetInsert(members, key, value, key);
    if Get(members, key) == Some(value) { InsertSame(members, key, value); }
  }

  lemma {:induction false} ShiftRemoveIsSame(members: seq<Member>, key: string)
    requires Distinct(members)
    ensures ShiftRemove(members, key) == members <==> Get(members, key) == None
  {
    RemovedKeyIsGone(members, key);
    GetMeaning(members, key);
    if Get(members, key) == None { ShiftRemoveAbsent(members, key); }
  }

  /** The members the merge starts from are the config's own unless it adds the Cursor version. */
  lemma {:induction false} BaseMembersFacts(editor: Editor, existing: Value)
    requires WellFormed(existing) && existing.Object?
    ensures var members := BaseMembers(editor, existing);
            && Get(members, "hooks") == Get(existing.members, "hooks")
            && (members == existing.members <==> (editor.Cursor? ==> Get(existing.members, "version").Some?))
            && Get(members, "version")
               == if members == existing.members then Get(existing.members, "version") else Some(Number(1.0))
  {
    assert "hooks"[0] != "version"[0];
    GetInsert(existing.members, "version", Number(1.0), "hooks");
    GetInsert(existing.members, "version", Number(1.0), "version");
  }

  /** Both edits of the `hooks` key leave the version alone. */
  lemma {:induction false} VersionKept(members: seq<Member>, value: Value)
    ensures Get(Insert(members, "hooks", value), "version") == Get(members, "version")
  {
    assert "hooks"[0] != "version"[0];
    GetInsert(members, "hooks", value, "version");
  }

  /** The members after the removal, given what is left of the hooks object. */
  function PutBack(editor: Editor, members: seq<Member>, stripped: seq<Member>): seq<Member> {
    if editor.Cursor? || stripped != [] then Insert(members, "hooks", Object(stripped))
    else ShiftRemove(members, "hooks")
  }

  lemma {:induction false} PutBackIsSame(editor: Editor, members: seq<Member>, stripped: seq<Member>)
    requires Distinct(members)
    ensures PutBack(editor, members, stripped) == members <==>
              match Get(members, "hooks")
              case None => !editor.Cursor? && stripped == []
              case Some(Object(hooks)) => (editor.Cursor? || stripped != []) && stripped == hooks
              case Some(_) => false
  {
    InsertIsSame(members, "hooks", Object(stripped));
    ShiftRemoveIsSame(members, "hooks");
  }

  /** What is left of the hooks object is what was there exactly when our groups are recognised and it is restorable. */
  lemma {:induction false} StrippedIsSame(editor: Editor, hooks: seq<Member>, bin: string)
    requires Distinct(hooks) && AreEntries(OurHooks(editor, bin))
    ensures var ours := OurHooks(editor, bin);
            var stripped := Strip(editor, MergeFrom(editor, hooks, ours, 0));
            && (stripped == hooks <==> '"' !in bin && HooksRestorable(editor, hooks, ours))
            && ('"' in bin ==> stripped != [])
            && HooksRestorable(editor, [], ours)
  {
    OurHooksRecognised(editor, bin);
    var ours := OurHooks(editor, bin);
    if '"' in bin {
      StripKeepsUnrecognised(editor, hooks, ours);
    } else {
      StripUndoesMergeFrom(editor, hooks, ours);
    }
  }

  /**
   Removing what a merge added gives back the config it was merged into, key order included, exactly
   when the binary path has no double quote and the config is restorable.
   */
  lemma {:induction false} RemoveUndoesMerge(editor: Editor, existing: Value, bin: string)
    requires WellFormed(existing)
    ensures AreEntries(OurHooks(editor, bin))
    ensures Removed(editor, Merged(editor, existing, bin)) == existing <==>
              '"' !in bin && Restorable(editor, existing, OurHooks(editor, bin))
  {
    EntriesAreEntries(editor, bin);
    RemovedMerged(editor, existing, bin);
    if existing.Object? {
      var members, ours := BaseMembers(editor, existing), OurHooks(editor, bin);
      var stripped := Strip(editor, MergeFrom(editor, BaseHooks(members), ours, 0));
      BaseMembersFacts(editor, existing);
      assert Removed(editor, Merged(editor, existing, bin)) == Object(PutBack(editor, members, stripped));
      if members != existing.members {
        VersionKept(members, Object(stripped));
      } else {
        PutBackIsSame(editor, members, stripped);
        StrippedIsSame(editor, BaseHooks(members), bin);
      }
    }
  }
}
