/**
 * The JSON documents the plan builder reads, and the handful of accessors
 * it uses on them: key test, key lookup, iteration, and conversion of a
 * value to a string, an int, a float or a bool.
 */
module JsonValues {
  import opened Errors

  datatype Json =
    | JNull
    | JBool(b: bool)
    | JInt(i: int)
    | JFloat(f: real)
    | JString(s: string)
    | JArray(items: seq<Json>)
    | JObject(members: seq<Member>)

  datatype Member = Member(key: string, value: Json)

  /** The value of the last member named `key`, which a parsed document keeps for a duplicated key. */
  function LastMember(members: seq<Member>, key: string): (r: Option<Json>)
    ensures r.Some? ==> Member(key, r.value) in members && r.value < JObject(members)
    decreases |members|
  {
    if members == [] then None
    else
      var n := |members| - 1;
      if members[n].key == key then Some(members[n].value)
      else LastMember(members[..n], key)
  }

  /** `contains(key)`: an object with a member named `key`. */
  predicate Contains(j: Json, key: string) {
    j.JObject? && LastMember(j.members, key).Some?
  }

  /** A member is found exactly when some member carries the key. */
  lemma {:induction false} LastMemberFound(members: seq<Member>, key: string)
    ensures LastMember(members, key).Some? <==> exists i :: 0 <= i < |members| && members[i].key == key
    decreases |members|
  {
    if members != [] {
      var n := |members| - 1;
      LastMemberFound(members[..n], key);
      if members[n].key != key {
        if i :| 0 <= i < |members| && members[i].key == key {
          assert members[..n][i].key == key;
        }
      }
    }
  }

  lemma ContainsMeaning(j: Json, key: string)
    ensures Contains(j, key) <==> j.JObject? && exists m :: m in j.members && m.key == key
  {
    if j.JObject? {
      LastMemberFound(j.members, key);
      if m :| m in j.members && m.key == key {
        var i :| 0 <= i < |j.members| && j.members[i] == m;
        assert j.members[i].key == key;
      }
    }
  }

  /** The member at `i` is the one found when no later member has its key. */
  lemma {:induction false} LastMemberAt(members: seq<Member>, key: string, i: nat)
    requires i < |members| && members[i].key == key
    requires forall k :: i < k < |members| ==> members[k].key != key
    ensures LastMember(members, key) == Some(members[i].value)
    decreases |members|
  {
    var n := |members| - 1;
    if i < n {
      assert forall k :: i < k < n ==> members[..n][k] == members[k];
      LastMemberAt(members[..n], key, i);
    }
  }

  /** `j[key]` on an object whose member `i` is the last one named `key`. */
  lemma FieldAt(j: Json, key: string, i: nat)
    requires j.JObject? && i < |j.members| && j.members[i].key == key
    requires forall k :: i < k < |j.members| ==> j.members[k].key != key
    ensures Contains(j, key) && Field(j, key) == Ok(j.members[i].value)
  {
    LastMemberAt(j.members, key, i);
  }

  /** An object none of whose members carries `key` does not contain it. */
  lemma {:induction false} Absent(j: Json, key: string)
    requires j.JObject? && forall k :: 0 <= k < |j.members| ==> j.members[k].key != key
    ensures !Contains(j, key) && Field(j, key) == Err(BadJson(key))
  {
    LastMemberFound(j.members, key);
  }

  /**
   * `j[key]` on a document read through a const reference: the member's
   * value; a missing member or a non-object fails.
   */
  function Field(j: Json, key: string): (r: Result<Json>)
    ensures r.Ok? <==> Contains(j, key)
    ensures r.Ok? ==> r.value < j
    ensures r.Err? ==> r.error == BadJson(key)
  {
    if j.JObject? then
      match LastMember(j.members, key)
      case Some(v) => Ok(v)
      case None => Err(BadJson(key))
    else Err(BadJson(key))
  }

  // ---------------------------------------------------------------- Key order

  /** `a` sorts strictly before `b` in std::string order: lexicographic by character code. */
  predicate Before(a: string, b: string)
    decreases |a|
  {
    b != [] && (a == [] || a[0] < b[0] || (a[0] == b[0] && Before(a[1..], b[1..])))
  }

  lemma {:induction false} BeforeIrreflexive(a: string)
    ensures !Before(a, a)
    decreases |a|
  {
    if a != [] {
      BeforeIrreflexive(a[1..]);
    }
  }

  lemma {:induction false} BeforeTotal(a: string, b: string)
    ensures a == b || Before(a, b) || Before(b, a)
    decreases |a|
  {
    if a != [] && b != [] && a[0] == b[0] {
      BeforeTotal(a[1..], b[1..]);
      if a[1..] == b[1..] {
        assert a == [a[0]] + a[1..] && b == [b[0]] + b[1..];
      }
    }
  }

  lemma {:induction false} BeforeTransitive(a: string, b: string, c: string)
    requires Before(a, b) && Before(b, c)
    ensures Before(a, c)
    decreases |a|
  {
    if a != [] && a[0] == b[0] && b[0] == c[0] {
      BeforeTransitive(a[1..], b[1..], c[1..]);
    }
  }

  /** Strictly increasing keys: sorted, and no key twice. */
  ghost predicate Sorted(ks: seq<string>) {
    forall i, j :: 0 <= i < j < |ks| ==> Before(ks[i], ks[j])
  }

  /** `k` put in its place in a sorted key list, unless it is there already. */
  function Insert(k: string, ks: seq<string>): seq<string>
    decreases |ks|
  {
    if ks == [] then [k]
    else if k == ks[0] then ks
    else if Before(k, ks[0]) then [k] + ks
    else [ks[0]] + Insert(k, ks[1..])
  }

  lemma {:induction false} InsertSorted(k: string, ks: seq<string>)
    requires Sorted(ks)
    ensures Sorted(Insert(k, ks))
    ensures forall x :: x in Insert(k, ks) <==> x == k || x in ks
    decreases |ks|
  {
    if ks == [] || k == ks[0] {
    } else if Before(k, ks[0]) {
      forall j | 0 < j < |ks|
        ensures Before(k, ks[j])
      {
        BeforeTransitive(k, ks[0], ks[j]);
      }
    } else {
      var rest := Insert(k, ks[1..]);
      InsertSorted(k, ks[1..]);
      BeforeTotal(k, ks[0]);
      forall j | 0 <= j < |rest|
        ensures Before(ks[0], rest[j])
      {
        if rest[j] != k {
          assert rest[j] in ks[1..];
          var m :| 0 <= m < |ks[1..]| && ks[1..][m] == rest[j];
          assert ks[m + 1] == rest[j];
        }
      }
      assert ks == [ks[0]] + ks[1..];
    }
  }

  /** The distinct keys of an object's members, in increasing order: the keys of the map a parse builds. */
  function ObjectKeys(members: seq<Member>): seq<string>
    decreases |members|
  {
    if members == [] then []
    else
      var n := |members| - 1;
      Insert(members[n].key, ObjectKeys(members[..n]))
  }

  /** The object's keys are sorted, and they are exactly the keys a lookup finds. */
  lemma {:induction false} ObjectKeysMeaning(members: seq<Member>)
    ensures Sorted(ObjectKeys(members))
    ensures forall k :: k in ObjectKeys(members) <==> LastMember(members, k).Some?
    decreases |members|
  {
    if members != [] {
      var n := |members| - 1;
      ObjectKeysMeaning(members[..n]);
      InsertSorted(members[n].key, ObjectKeys(members[..n]));
    }
  }

  /**
   * Range-for over a value: an array's items; for an object, the value of
   * each distinct key in increasing key order (the map a parse builds keeps
   * the last value of a duplicated key); nothing for null; any other value
   * as the only element.
   */
  function Elements(j: Json): (r: seq<Json>)
    ensures forall e :: e in r ==> e < j || e == j
    ensures j.JArray? ==> r == j.items
  {
    match j
    case JArray(items) => items
    case JObject(members) =>
      var ks := ObjectKeys(members);
      ObjectKeysMeaning(members);
      seq(|ks|, i requires 0 <= i < |ks| => LastMember(members, ks[i]).value)
    case JNull => []
    case _ => [j]
  }

  /**
   * Iterating an object visits one value per distinct key, in increasing
   * key order, and each is the value `j[key]` reads.
   */
  lemma ElementsOfObject(j: Json)
    requires j.JObject?
    ensures var ks := ObjectKeys(j.members);
      && |Elements(j)| == |ks|
      && (forall i, k :: 0 <= i < k < |ks| ==> Before(ks[i], ks[k]))
      && (forall key :: key in ks <==> Contains(j, key))
      && (forall i :: 0 <= i < |ks| ==> Field(j, ks[i]) == Ok(Elements(j)[i]))
  {
    ObjectKeysMeaning(j.members);
  }

  /** Conversion to a string: only a string converts. */
  function AsString(j: Json, key: string): (r: Result<string>)
    ensures r.Ok? <==> j.JString?
    ensures r.Ok? ==> r.value == j.s
  {
    if j.JString? then Ok(j.s) else Err(BadJson(key))
  }

  /** A real truncated toward zero. */
  function Truncate(f: real): (r: int)
    ensures f >= 0.0 ==> r as real <= f < r as real + 1.0
    ensures f < 0.0 ==> r as real - 1.0 < f <= r as real
  {
    if f >= 0.0 then f.Floor else -((-f).Floor)
  }

  /** Conversion to an int: numbers (a float truncated toward zero) and bools convert. */
  function AsInt(j: Json, key: string): (r: Result<int>)
    ensures r.Ok? <==> j.JInt? || j.JFloat? || j.JBool?
    ensures j.JInt? ==> r == Ok(j.i)
    ensures j.JBool? ==> r == Ok(if j.b then 1 else 0)
  {
    match j
    case JInt(i) => Ok(i)
    case JFloat(f) => Ok(Truncate(f))
    case JBool(b) => Ok(if b then 1 else 0)
    case _ => Err(BadJson(key))
  }

  /** Conversion to a float: numbers and bools convert. */
  function AsReal(j: Json, key: string): (r: Result<real>)
    ensures r.Ok? <==> j.JInt? || j.JFloat? || j.JBool?
    ensures j.JFloat? ==> r == Ok(j.f)
    ensures j.JInt? ==> r == Ok(j.i as real)
  {
    match j
    case JInt(i) => Ok(i as real)
    case JFloat(f) => Ok(f)
    case JBool(b) => Ok(if b then 1.0 else 0.0)
    case _ => Err(BadJson(key))
  }

  /** Conversion to a bool: only a bool converts. */
  function AsBool(j: Json, key: string): (r: Result<bool>)
    ensures r.Ok? <==> j.JBool?
    ensures r.Ok? ==> r.value == j.b
  {
    if j.JBool? then Ok(j.b) else Err(BadJson(key))
  }

  /** `j[key]` converted to a string. */
  function StringField(j: Json, key: string): (r: Result<string>)
    ensures r.Ok? <==> Contains(j, key) && Field(j, key).value.JString?
  {
    var v :- Field(j, key);
    AsString(v, key)
  }
}
