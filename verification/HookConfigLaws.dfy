/** What merging and removing come to, written out: the installed configs, and the groups kept and dropped. */
module HookConfigLaws {
  import opened Wrappers
  import opened Text
  import opened Json
  import opened HookCommand
  import opened HookConfig

  /******* Whose a group is *******/

  /** Everything we ever write behind the binary path. */
  function Spelled(editor: Editor, event: Event): string {
    match (editor, event)
    case (ClaudeCode, SessionStart) => "hook claude-code session-start"
    case (ClaudeCode, Stop) => "hook claude-code stop"
    case (ClaudeCode, PreCompact) => "hook claude-code pre-compact"
    case (ClaudeCode, SessionEnd) => "hook claude-code session-end"
    case (Codex, SessionStart) => "hook codex session-start"
    case (Codex, Stop) => "hook codex stop"
    case (Codex, PreCompact) => "hook codex pre-compact"
    case (Codex, SessionEnd) => "hook codex session-end"
    case (Cursor, SessionStart) => "hook cursor session-start"
    case (Cursor, Stop) => "hook cursor stop"
    case (Cursor, PreCompact) => "hook cursor pre-compact"
    case (Cursor, SessionEnd) => "hook cursor session-end"
  }

  lemma {:induction false} ClaudeCodeInvocations()
    ensures Invocation(ClaudeCode, SessionStart) == "hook claude-code session-start"
    ensures Invocation(ClaudeCode, Stop) == "hook claude-code stop"
    ensures Invocation(ClaudeCode, PreCompact) == "hook claude-code pre-compact"
    ensures Invocation(ClaudeCode, SessionEnd) == "hook claude-code session-end"
  {
    assert "hook " + "claude-code" + " " == "hook claude-code ";
  }

  lemma {:induction false} CodexInvocations()
    ensures Invocation(Codex, SessionStart) == "hook codex session-start"
    ensures Invocation(Codex, Stop) == "hook codex stop"
    ensures Invocation(Codex, PreCompact) == "hook codex pre-compact"
    ensures Invocation(Codex, SessionEnd) == "hook codex session-end"
  {
    assert "hook " + "codex" + " " == "hook codex ";
  }

  lemma {:induction false} CursorInvocations()
    ensures Invocation(Cursor, SessionStart) == "hook cursor session-start"
    ensures Invocation(Cursor, Stop) == "hook cursor stop"
    ensures Invocation(Cursor, PreCompact) == "hook cursor pre-compact"
    ensures Invocation(Cursor, SessionEnd) == "hook cursor session-end"
  {
    assert "hook " + "cursor" + " " == "hook cursor ";
  }

  lemma {:induction false} InvocationIsSpelled(editor: Editor, event: Event)
    ensures Invocation(editor, event) == Spelled(editor, event)
  {
    match editor
    case ClaudeCode => ClaudeCodeInvocations();
    case Codex => CodexInvocations();
    case Cursor => CursorInvocations();
  }

  /** A quoted path without a quote, then one of our invocations with white space around it. */
  ghost predicate IsOurCommand(command: string) {
    exists bin, editor, event :: '"' !in bin && IsWritten(command, bin, Spelled(editor, event))
  }

  lemma {:induction false} IsOursMeaning(command: string)
    ensures IsOurs(command) <==> IsOurCommand(command)
  {
    if IsOurs(command) {
      var ours := ParseOurs(command).value;
      ParseOursMeaning(command, ours);
      InvocationIsSpelled(ours.editor, ours.event);
    }
    if IsOurCommand(command) {
      var bin, editor, event :| '"' !in bin && IsWritten(command, bin, Spelled(editor, event));
      InvocationIsSpelled(editor, event);
      ParseOursMeaning(command, Ours(bin, editor, event));
    }
  }

  ghost predicate HasOurCommand(hook: Value) {
    exists command :: Field(hook, "command") == Some(Str(command)) && IsOurCommand(command)
  }

  /** Cursor's entries hold the command themselves; the other editors' groups hold a list of hooks. */
  ghost predicate CarriesOurs(editor: Editor, group: Value) {
    if editor == Cursor then HasOurCommand(group)
    else exists hooks ::
           Field(group, "hooks") == Some(Array(hooks)) && exists hook :: hook in hooks && HasOurCommand(hook)
  }

  lemma {:induction false} HookMeaning(hook: Value)
    ensures CommandIsOurs(hook) <==> HasOurCommand(hook)
  {
    var command := Field(hook, "command");
    if command.Some? && command.value.Str? { IsOursMeaning(command.value.text); }
  }

  lemma {:induction false} GroupMeaning(editor: Editor, group: Value)
    ensures GroupIsOurs(editor, group) <==> CarriesOurs(editor, group)
  {
    HookMeaning(group);
    var hooks := Field(group, "hooks");
    if hooks.Some? && hooks.value.Array? {
      forall i | 0 <= i < |hooks.value.items|
        ensures CommandIsOurs(hooks.value.items[i]) <==> HasOurCommand(hooks.value.items[i])
      {
        HookMeaning(hooks.value.items[i]);
      }
    }
  }

  /******* What is kept *******/

  /** Of a list of groups, exactly those stay, in order, that carry no command of ours. */
  lemma {:induction false} KeptGroups(editor: Editor, a: seq<Value>, group: Value, b: seq<Value>)
    ensures Foreign(editor, []) == []
    ensures Foreign(editor, a + [group] + b)
         == Foreign(editor, a) + (if CarriesOurs(editor, group) then [] else [group]) + Foreign(editor, b)
  {
    ForeignAppend(editor, a + [group], b);
    ForeignAppend(editor, a, [group]);
    ForeignOne(editor, group);
    GroupMeaning(editor, group);
  }

  lemma {:induction false} StripAppend(editor: Editor, a: seq<Member>, b: seq<Member>)
    ensures Strip(editor, a + b) == Strip(editor, a) + Strip(editor, b)
  {
    if a == [] {
      assert a + b == b;
    } else {
      assert (a + b)[1..] == a[1..] + b;
      StripAppend(editor, a[1..], b);
      AppendAssociates(StripOne(editor, a[0]), Strip(editor, a[1..]), Strip(editor, b));
    }
  }

  /** What removal leaves of one member: nothing of an array whose every group is ours. */
  ghost function Remains(editor: Editor, key: string, value: Value): seq<Member> {
    match value
    case Array(groups) =>
      if forall i :: 0 <= i < |groups| ==> CarriesOurs(editor, groups[i]) then []
      else [Member(key, Array(Foreign(editor, groups)))]
    case _ => [Member(key, value)]
  }

  lemma {:induction false} StripSingle(editor: Editor, key: string, value: Value)
    ensures Strip(editor, [Member(key, value)]) == Remains(editor, key, value)
  {
    var one := [Member(key, value)];
    assert one[1..] == [] && Strip(editor, []) == [];
    if value.Array? { NoneForeign(editor, value.items); }
  }

  /**
   Removal goes through the hooks object in order: a value that is no array stays, an array keeps its
   foreign groups, and the key goes when none is left.
   */
  lemma {:induction false} KeptKeys(editor: Editor, a: seq<Member>, key: string, value: Value, b: seq<Member>)
    ensures Strip(editor, []) == []
    ensures Strip(editor, a + [Member(key, value)] + b)
         == Strip(editor, a) + Remains(editor, key, value) + Strip(editor, b)
  {
    StripAppend(editor, a + [Member(key, value)], b);
    StripAppend(editor, a, [Member(key, value)]);
    StripSingle(editor, key, value);
  }

  lemma {:induction false} NoneForeign(editor: Editor, groups: seq<Value>)
    ensures Foreign(editor, groups) == [] <==> forall i :: 0 <= i < |groups| ==> CarriesOurs(editor, groups[i])
  {
    if groups != [] {
      GroupMeaning(editor, groups[0]);
      NoneForeign(editor, groups[1..]);
      assert forall i :: 1 <= i < |groups| ==> groups[i] == groups[1..][i - 1];
    }
  }

  lemma {:induction false} GetShiftRemove(members: seq<Member>, key: string, other: string)
    requires other != key
    ensures Get(ShiftRemove(members, key), other) == Get(members, other)
  {
    if members != [] && members[0].key != key {
      GetShiftRemove(members[1..], key, other);
    }
  }

  /**
   Every setting but `hooks` survives both operations, except that a merge for Cursor adds a missing
   version 1; a config that is no object is merged into as an empty one and is left alone by a removal.
   */
  lemma {:induction false} SettingsSurvive(editor: Editor, existing: Value, bin: string, key: string)
    requires key != "hooks"
    ensures AreEntries(OurHooks(editor, bin))
    ensures var after := Field(Merged(editor, existing, bin), key);
            if Field(existing, key).Some? then after == Field(existing, key)
            else after == if editor == Cursor && key == "version" then Some(Number(1.0)) else None
    ensures Field(Removed(editor, existing), key) == Field(existing, key)
    ensures !existing.Object? ==> Removed(editor, existing) == existing
  {
    EntriesAreEntries(editor, bin);
    var members := if existing.Object? then existing.members else [];
    var base := BaseMembers(editor, existing);
    GetInsert(members, "version", Number(1.0), key);
    GetInsert(base, "hooks", Object(MergeFrom(editor, BaseHooks(base), OurHooks(editor, bin), 0)), key);
    GetShiftRemove(members, "hooks", key);
    GetInsert(members, "hooks", Object(Strip(editor, BaseHooks(members))), key);
  }

  /******* The configs we install *******/

  lemma {:induction false} MergeIntoNothing(editor: Editor, ours: seq<Member>, i: nat)
    requires i <= |ours| && AreEntries(ours)
    ensures MergeFrom(editor, ours[..i], ours, i) == ours
    decreases |ours| - i
  {
    if i < |ours| {
      KeyIsNew(ours, i);
      assert ArrayAt(ours[..i], ours[i].key) == [];
      assert [] + ours[i].value.items == ours[i].value.items;
      InsertAppend(ours[..i], [], ours[i].key, ours[i].value);
      assert ours[..i] + [] == ours[..i] && ours[..i + 1] == ours[..i] + [ours[i]];
      assert ours[i] == Member(ours[i].key, ours[i].value);
      MergeIntoNothing(editor, ours, i + 1);
    } else {
      assert ours[..i] == ours;
    }
  }

  lemma {:induction false} KeyIsNew(ours: seq<Member>, i: nat)
    requires i < |ours| && Distinct(ours)
    ensures !HasKey(ours[..i], ours[i].key) && Get(ours[..i], ours[i].key) == None
  {
    GetMeaning(ours[..i], ours[i].key);
  }

  /** Into a config without a `hooks` object our entries go as they are. */
  lemma {:induction false} FreshConfig(editor: Editor, bin: string)
    ensures AreEntries(OurHooks(editor, bin))
    ensures var hooks := Member("hooks", Object(OurHooks(editor, bin)));
            Merged(editor, Object([]), bin)
            == Object(if editor.Cursor? then [Member("version", Number(1.0))] + [hooks] else [hooks])
  {
    EntriesAreEntries(editor, bin);
    var ours, version := OurHooks(editor, bin), [Member("version", Number(1.0))];
    MergeIntoNothing(editor, ours, 0);
    assert ours[..0] == [];
    assert "version"[0] != "hooks"[0];
    if editor.Cursor? {
      assert version[1..] == [];
      assert Get(version, "hooks") == Get([], "hooks") == None;
      InsertAppend(version, [], "hooks", Object(ours));
      assert version + [] == version;
    }
  }

  /** `"command": "\"<bin>\" <invocation>"`. */
  function Run(bin: string, invocation: string): Member {
    Member("command", Str("\"" + bin + "\" " + invocation))
  }

  function Seconds(n: nat): Member {
    Member("timeout", Number(n as real))
  }

  /** `"hooks": [{"type": "command", "command": ..., <extra>}]`. */
  function OneHook(bin: string, invocation: string, extra: Member): Member {
    Member("hooks", Array([Object([Member("type", Str("command")), Run(bin, invocation), extra])]))
  }

  /** `"<event>": [{<members>}]`. */
  function Entry(event: string, members: seq<Member>): Member {
    Member(event, Array([Object(members)]))
  }

  /** What a merge into an empty config writes for Claude Code, in full. */
  lemma {:induction false} ClaudeCodeConfig(bin: string)
    ensures AreEntries(OurHooks(ClaudeCode, bin))
    ensures Merged(ClaudeCode, Object([]), bin)
         == Object([Member("hooks", Object([
              Entry("SessionStart", [Member("matcher", Str("startup|resume|clear|compact")),
                    OneHook(bin, "hook claude-code session-start", Seconds(30))]),
              Entry("Stop", [OneHook(bin, "hook claude-code stop", Member("async", Bool(true)))]),
              Entry("PreCompact", [OneHook(bin, "hook claude-code pre-compact", Seconds(60))]),
              Entry("SessionEnd", [OneHook(bin, "hook claude-code session-end", Seconds(60))])]))])
  {
    FreshConfig(ClaudeCode, bin);
    assert OurHooks(ClaudeCode, bin)
        == [Member("SessionStart", Array([OurGroup(ClaudeCode, SessionStart, bin)])),
            Member("Stop", Array([OurGroup(ClaudeCode, Stop, bin)])),
            Member("PreCompact", Array([OurGroup(ClaudeCode, PreCompact, bin)])),
            Member("SessionEnd", Array([OurGroup(ClaudeCode, SessionEnd, bin)]))];
    ClaudeCodeInvocations();
    assert OurGroup(ClaudeCode, SessionStart, bin)
        == Object([Member("matcher", Str("startup|resume|clear|compact")),
              OneHook(bin, "hook claude-code session-start", Seconds(30))]);
    assert OurGroup(ClaudeCode, Stop, bin)
        == Object([OneHook(bin, "hook claude-code stop", Member("async", Bool(true)))]);
    assert OurGroup(ClaudeCode, PreCompact, bin)
        == Object([OneHook(bin, "hook claude-code pre-compact", Seconds(60))]);
    assert OurGroup(ClaudeCode, SessionEnd, bin)
        == Object([OneHook(bin, "hook claude-code session-end", Seconds(60))]);
  }

  /** Codex has no session-end event, and every group of its matches everything. */
  lemma {:induction false} CodexConfig(bin: string)
    ensures AreEntries(OurHooks(Codex, bin))
    ensures Merged(Codex, Object([]), bin)
         == Object([Member("hooks", Object([
              Entry("SessionStart", [Member("matcher", Str("*")),
                    OneHook(bin, "hook codex session-start", Seconds(30))]),
              Entry("Stop", [Member("matcher", Str("*")),
                    OneHook(bin, "hook codex stop", Member("async", Bool(true)))]),
              Entry("PreCompact", [Member("matcher", Str("*")),
                    OneHook(bin, "hook codex pre-compact", Seconds(60))])]))])
  {
    FreshConfig(Codex, bin);
    assert OurHooks(Codex, bin)
        == [Member("SessionStart", Array([OurGroup(Codex, SessionStart, bin)])),
            Member("Stop", Array([OurGroup(Codex, Stop, bin)])),
            Member("PreCompact", Array([OurGroup(Codex, PreCompact, bin)]))];
    CodexInvocations();
    assert OurGroup(Codex, SessionStart, bin)
        == Object([Member("matcher", Str("*")), OneHook(bin, "hook codex session-start", Seconds(30))]);
    assert OurGroup(Codex, Stop, bin)
        == Object([Member("matcher", Str("*")),
              OneHook(bin, "hook codex stop", Member("async", Bool(true)))]);
    assert OurGroup(Codex, PreCompact, bin)
        == Object([Member("matcher", Str("*")), OneHook(bin, "hook codex pre-compact", Seconds(60))]);
  }

  /** Cursor's entries are flat, and its config carries a version. */
  lemma {:induction false} CursorConfig(bin: string)
    ensures AreEntries(OurHooks(Cursor, bin))
    ensures Merged(Cursor, Object([]), bin)
         == Object([Member("version", Number(1.0))] + [Member("hooks", Object([
              Entry("sessionStart", [Run(bin, "hook cursor session-start"), Seconds(30)]),
              Entry("stop", [Run(bin, "hook cursor stop"), Seconds(60), Member("loop_limit", Number(1.0))]),
              Entry("preCompact", [Run(bin, "hook cursor pre-compact"), Seconds(60)]),
              Entry("sessionEnd", [Run(bin, "hook cursor session-end"), Seconds(60)])]))])
  {
    FreshConfig(Cursor, bin);
    assert OurHooks(Cursor, bin)
        == [Member("sessionStart", Array([OurGroup(Cursor, SessionStart, bin)])),
            Member("stop", Array([OurGroup(Cursor, Stop, bin)])),
            Member("preCompact", Array([OurGroup(Cursor, PreCompact, bin)])),
            Member("sessionEnd", Array([OurGroup(Cursor, SessionEnd, bin)]))];
    CursorInvocations();
    assert OurGroup(Cursor, SessionStart, bin)
        == Object([Run(bin, "hook cursor session-start"), Seconds(30)]);
    assert OurGroup(Cursor, Stop, bin)
        == Object([Run(bin, "hook cursor stop"), Seconds(60), Member("loop_limit", Number(1.0))]);
    assert OurGroup(Cursor, PreCompact, bin)
        == Object([Run(bin, "hook cursor pre-compact"), Seconds(60)]);
    assert OurGroup(Cursor, SessionEnd, bin)
        == Object([Run(bin, "hook cursor session-end"), Seconds(60)]);
  }
}
