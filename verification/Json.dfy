/** JSON values whose objects keep insertion order, as `serde_json` does with `preserve_order`. */
module Json {
  import opened Wrappers

  datatype Value =
    | Null
    | Bool(b: bool)
    | Number(n: real)
    | Str(text: string)
    | Array(items: seq<Value>)
    | Object(members: seq<Member>)

  datatype Member = Member(key: string, value: Value)

  predicate HasKey(members: seq<Member>, key: string) {
    exists i :: 0 <= i < |members| && members[i].key == key
  }

  /** Keys of an object never repeat. */
  predicate Distinct(members: seq<Member>) {
    forall i, j :: 0 <= i < j < |members| ==> members[i].key != members[j].key
  }

  /** `Map::get`. */
  function Get(members: seq<Member>, key: string): Option<Value> {
    if members == [] then None
    else if members[0].key == key then Some(members[0].value)
    else Get(members[1..], key)
  }

  /** `Value::get` with a string index: `None` on anything but an object. */
  function Field(value: Value, key: string): Option<Value> {
    if value.Object? then Get(value.members, key) else None
  }

  /** `Map::insert`: an existing key keeps its place, a new one goes last. */
  function Insert(members: seq<Member>, key: string, value: Value): seq<Member> {
    if members == [] then [Member(key, value)]
    else if members[0].key == key then [Member(key, value)] + members[1..]
    else [members[0]] + Insert(members[1..], key, value)
  }

  /** `Map::shift_remove`: the other keys keep their order. */
  function ShiftRemove(members: seq<Member>, key: string): seq<Member> {
    if members == [] then []
    else if members[0].key == key then members[1..]
    else [members[0]] + ShiftRemove(members[1..], key)
  }

  lemma {:induction false} GetMeaning(members: seq<Member>, key: string)
    ensures Get(members, key).Some? <==> HasKey(members, key)
  {
    if members != [] && members[0].key != key {
      var rest := members[1..];
      GetMeaning(rest, key);
      if HasKey(members, key) {
        var i :| 0 <= i < |members| && members[i].key == key;
        assert rest[i - 1].key == key;
      }
      if HasKey(rest, key) {
        var i :| 0 <= i < |rest| && rest[i].key == key;
        assert members[i + 1].key == key;
      }
    }
  }

  /** The first member with a key is the one `Get` finds. */
  lemma {:induction false} GetNth(members: seq<Member>, n: nat)
    requires n < |members| && forall k :: 0 <= k < n ==> members[k].key != members[n].key
    ensures Get(members, members[n].key) == Some(members[n].value)
  {
    if n > 0 {
      assert forall k :: 0 <= k < |members[1..]| ==> members[1..][k] == members[k + 1];
      GetNth(members[1..], n - 1);
    }
  }

  /** The members before, at and after a key that is present. */
  lemma {:induction false} SplitAt(members: seq<Member>, key: string) returns (before: seq<Member>, after: seq<Member>)
    requires HasKey(members, key)
    ensures Get(members, key).Some?
    ensures members == before + [Member(key, Get(members, key).value)] + after && !HasKey(before, key)
  {
    if members[0].key == key {
      before, after := [], members[1..];
    } else {
      var i :| 0 <= i < |members| && members[i].key == key;
      assert members[1..][i - 1].key == key;
      var shorter;
      shorter, after := SplitAt(members[1..], key);
      before := [members[0]] + shorter;
      assert forall k :: 1 <= k < |before| ==> before[k] == shorter[k - 1];
    }
  }

  lemma {:induction false} GetAppend(before: seq<Member>, after: seq<Member>, key: string)
    ensures Get(before + after, key) == if HasKey(before, key) then Get(before, key) else Get(after, key)
  {
    if before == [] {
      assert before + after == after;
    } else {
      assert (before + after)[1..] == before[1..] + after;
      GetAppend(before[1..], after, key);
      if HasKey(before, key) && before[0].key != key {
        var i :| 0 <= i < |before| && before[i].key == key;
        assert before[1..][i - 1].key == key;
      }
    }
  }

  lemma {:induction false} InsertAppend(before: seq<Member>, after: seq<Member>, key: string, value: Value)
    requires !HasKey(before, key)
    ensures Insert(before + after, key, value) == before + Insert(after, key, value)
    ensures ShiftRemove(before + after, key) == before + ShiftRemove(after, key)
  {
    if before == [] {
      assert before + after == after;
    } else {
      assert (before + after)[1..] == before[1..] + after;
      assert before[0].key != key;
      assert !HasKey(before[1..], key) by {
        assert forall i :: 0 <= i < |before[1..]| ==> before[1..][i] == before[i + 1];
      }
      InsertAppend(before[1..], after, key, value);
    }
  }

  /** Inserting at a present key replaces its value where it stands. */
  lemma {:induction false} InsertPresent(before: seq<Member>, old_: Value, after: seq<Member>, key: string,
                                         value: Value)
    requires !HasKey(before, key)
    ensures Insert(before + [Member(key, old_)] + after, key, value) == before + [Member(key, value)] + after
    ensures ShiftRemove(before + [Member(key, old_)] + after, key) == before + after
  {
    var tail := [Member(key, old_)] + after;
    assert before + [Member(key, old_)] + after == before + tail;
    InsertAppend(before, tail, key, value);
    assert tail[1..] == after;
  }

  lemma {:induction false} GetInsert(members: seq<Member>, key: string, value: Value, other: string)
    ensures Get(Insert(members, key, value), other) == if other == key then Some(value) else Get(members, other)
  {
    if members != [] && members[0].key != key {
      GetInsert(members[1..], key, value, other);
    }
  }

  /** Writing back the value already there changes nothing. */
  lemma {:induction false} InsertSame(members: seq<Member>, key: string, value: Value)
    requires Get(members, key) == Some(value)
    ensures Insert(members, key, value) == members
  {
    if members[0].key == key {
      assert members == [Member(key, value)] + members[1..];
    } else {
      InsertSame(members[1..], key, value);
      assert members == [members[0]] + members[1..];
    }
  }

  function Keys(members: seq<Member>): (keys: seq<string>)
    ensures |keys| == |members| && forall i :: 0 <= i < |members| ==> keys[i] == members[i].key
  {
    if members == [] then [] else [members[0].key] + Keys(members[1..])
  }

  lemma {:induction false} InsertKeys(members: seq<Member>, key: string, value: Value)
    ensures Keys(Insert(members, key, value)) == if HasKey(members, key) then Keys(members) else Keys(members) + [key]
  {
    if members != [] && members[0].key != key {
      var rest := members[1..];
      InsertKeys(rest, key, value);
      HasKeyTail(members, key);
      assert Insert(members, key, value)[1..] == Insert(rest, key, value);
    }
  }

  lemma {:induction false} HasKeyTail(members: seq<Member>, key: string)
    requires members != [] && members[0].key != key
    ensures HasKey(members, key) <==> HasKey(members[1..], key)
  {
    GetMeaning(members, key);
    GetMeaning(members[1..], key);
  }

  lemma {:induction false} InsertDistinct(members: seq<Member>, key: string, value: Value)
    requires Distinct(members)
    ensures Distinct(Insert(members, key, value))
  {
    var keys, next := Keys(members), Insert(members, key, value);
    InsertKeys(members, key, value);
    assert forall i :: 0 <= i < |next| ==> next[i].key == Keys(next)[i];
    assert forall i, j :: 0 <= i < j < |keys| ==> keys[i] != keys[j];
  }
}
