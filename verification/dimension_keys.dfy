// The key of a series: its attribute values, joined by NUL; and the reused list they are put in.
module DimensionKeys {
  import opened DimensionCaching

  const NUL: char := '\0'

  function Joined(vals: seq<string>): string {
    if vals == [] then ""
    else if |vals| == 1 then vals[0]
    else Joined(vals[..|vals| - 1]) + [NUL] + vals[|vals| - 1]
  }

  // Reading a key back: cut it at every NUL.
  function Parts(s: string): (vals: seq<string>)
    ensures vals != []
  {
    if s == "" then [""]
    else
      var n := |s| - 1;
      var vals := Parts(s[..n]);
      if s[n] == NUL then vals + [""] else vals[..|vals| - 1] + [vals[|vals| - 1] + [s[n]]]
  }

  ghost predicate NulFree(vals: seq<string>) {
    forall i :: 0 <= i < |vals| ==> NUL !in vals[i]
  }

  lemma {:induction false} PartsOfOne(val: string)
    requires NUL !in val
    ensures Parts(val) == [val]
  {
    if val != "" {
      PartsOfOne(val[..|val| - 1]);
      assert val[..|val| - 1] + [val[|val| - 1]] == val;
    }
  }

  lemma {:induction false} PartsAppend(s: string, val: string)
    requires NUL !in val
    ensures Parts(s + [NUL] + val) == Parts(s) + [val]
  {
    var t := s + [NUL] + val;
    if val == "" {
      assert t[..|t| - 1] == s;
    } else {
      var n := |val| - 1;
      PartsAppend(s, val[..n]);
      assert t[..|t| - 1] == s + [NUL] + val[..n];
      assert val[..n] + [val[n]] == val;
    }
  }

  lemma PartsOneMoreValue(vals: seq<string>, val: string)
    requires vals != [] && Parts(Joined(vals)) == vals && NUL !in val
    ensures Parts(Joined(vals + [val])) == vals + [val]
  {
    assert (vals + [val])[..|vals|] == vals;
    PartsAppend(Joined(vals), val);
  }

  // A key tells the values it was built from.
  lemma {:induction false} PartsOfJoined(vals: seq<string>)
    requires vals != [] && NulFree(vals)
    ensures Parts(Joined(vals)) == vals
  {
    var n := |vals| - 1;
    assert vals == vals[..n] + [vals[n]];
    if n == 0 {
      PartsOfOne(vals[0]);
    } else {
      assert NulFree(vals[..n]);
      PartsOfJoined(vals[..n]);
      PartsOneMoreValue(vals[..n], vals[n]);
    }
  }

  // ---------------------------------------------------------------- what a key tells

  function Nuls(s: string): nat {
    if s == "" then 0 else Nuls(s[..|s| - 1]) + if s[|s| - 1] == NUL then 1 else 0
  }

  lemma {:induction false} NulsConcat(a: string, b: string)
    ensures Nuls(a + b) == Nuls(a) + Nuls(b)
  {
    if b == "" {
      assert a + b == a;
    } else {
      NulsConcat(a, b[..|b| - 1]);
      assert (a + b)[..|a + b| - 1] == a + b[..|b| - 1];
    }
  }

  lemma {:induction false} NoNuls(s: string)
    ensures Nuls(s) == 0 <==> NUL !in s
  {
    if s != "" {
      NoNuls(s[..|s| - 1]);
      assert s == s[..|s| - 1] + [s[|s| - 1]];
    }
  }

  lemma {:induction false} PartsCount(s: string)
    ensures |Parts(s)| == Nuls(s) + 1
  {
    if s != "" {
      PartsCount(s[..|s| - 1]);
    }
  }

  lemma NulsOneMoreValue(vals: seq<string>, val: string)
    requires vals != []
    ensures Nuls(Joined(vals + [val])) == Nuls(Joined(vals)) + 1 + Nuls(val)
  {
    assert (vals + [val])[..|vals|] == vals;
    NulsConcat(Joined(vals) + [NUL], val);
    NulsConcat(Joined(vals), [NUL]);
    assert [NUL][..0] == "";
  }

  lemma NulFreeOneMore(vals: seq<string>, val: string)
    ensures NulFree(vals + [val]) <==> NulFree(vals) && NUL !in val
  {
    if NulFree(vals + [val]) {
      assert (vals + [val])[|vals|] == val;
      assert forall i :: 0 <= i < |vals| ==> (vals + [val])[i] == vals[i];
    }
  }

  lemma {:induction false} NulsOfKey(vals: seq<string>)
    requires vals != []
    ensures Nuls(Joined(vals)) >= |vals| - 1
    ensures Nuls(Joined(vals)) == |vals| - 1 <==> NulFree(vals)
  {
    var n := |vals| - 1;
    NoNuls(vals[n]);
    if n > 0 {
      NulsOfKey(vals[..n]);
      NulsOneMoreValue(vals[..n], vals[n]);
      NulFreeOneMore(vals[..n], vals[n]);
      assert vals == vals[..n] + [vals[n]];
    }
  }

  // A key has a part for every value, and one more for every NUL inside the values.
  lemma KeyParts(vals: seq<string>)
    requires vals != []
    ensures |Parts(Joined(vals))| >= |vals|
    ensures |Parts(Joined(vals))| == |vals| <==> NulFree(vals)
  {
    PartsCount(Joined(vals));
    NulsOfKey(vals);
  }

  lemma {:induction false} JoinedConcat(a: seq<string>, b: seq<string>)
    requires a != [] && b != []
    ensures Joined(a + b) == Joined(a) + [NUL] + Joined(b)
  {
    var n := |b| - 1;
    assert (a + b)[..|a + b| - 1] == a + b[..n];
    if n > 0 {
      JoinedConcat(a, b[..n]);
    } else {
      assert a + b[..n] == a;
    }
  }

  // Values in the middle of a list can be replaced by others with the same key.
  lemma JoinedMiddle(before: seq<string>, a: seq<string>, b: seq<string>, after: seq<string>)
    requires a != [] && b != [] && Joined(a) == Joined(b)
    ensures Joined(before + a + after) == Joined(before + b + after)
  {
    assert before == [] ==> before + a == a && before + b == b;
    if before != [] {
      JoinedConcat(before, a);
      JoinedConcat(before, b);
    }
    if after == [] {
      assert before + a + after == before + a && before + b + after == before + b;
    } else {
      JoinedConcat(before + a, after);
      JoinedConcat(before + b, after);
    }
  }

  lemma JoinedPair(x: string, y: string)
    ensures Joined([x, y]) == x + [NUL] + y
  {
    assert [x, y][..1] == [x];
  }

  // Where the first NUL of some values is, and the value cut in two there.
  lemma FindNul(vals: seq<string>) returns (i: nat, x: string, y: string)
    requires !NulFree(vals)
    ensures i < |vals| && vals[i] == x + [NUL] + y
  {
    i :| 0 <= i < |vals| && NUL in vals[i];
    var j :| 0 <= j < |vals[i]| && vals[i][j] == NUL;
    x, y := vals[i][..j], vals[i][j + 1..];
  }

  // Values with a NUL have the key of a list with one value more ...
  lemma LongerList(vals: seq<string>) returns (longer: seq<string>)
    requires !NulFree(vals)
    ensures |longer| == |vals| + 1 && Joined(longer) == Joined(vals)
  {
    var i, x, y := FindNul(vals);
    longer := vals[..i] + [x, y] + vals[i + 1..];
    JoinedPair(x, y);
    JoinedMiddle(vals[..i], [vals[i]], [x, y], vals[i + 1..]);
    assert vals[..i] + [vals[i]] + vals[i + 1..] == vals;
  }

  // ... and, if there are two or more, of another list of the same length.
  lemma OtherList(vals: seq<string>) returns (other: seq<string>)
    requires !NulFree(vals) && |vals| >= 2
    ensures |other| == |vals| && other != vals && Joined(other) == Joined(vals)
  {
    var i, x, y := FindNul(vals);
    if i == 0 {
      var z := vals[1];
      other := [] + [x, y + [NUL] + z] + vals[2..];
      JoinedPair(vals[0], z);
      JoinedPair(x, y + [NUL] + z);
      assert vals[0] + [NUL] + z == x + [NUL] + (y + [NUL] + z);
      JoinedMiddle([], [vals[0], z], [x, y + [NUL] + z], vals[2..]);
      assert [] + [vals[0], z] + vals[2..] == vals;
      assert |other[0]| < |vals[0]|;
    } else {
      var w := vals[i - 1];
      other := vals[..i - 1] + [w + [NUL] + x, y] + vals[i + 1..];
      JoinedPair(w, vals[i]);
      JoinedPair(w + [NUL] + x, y);
      assert w + [NUL] + vals[i] == w + [NUL] + x + [NUL] + y;
      JoinedMiddle(vals[..i - 1], [w, vals[i]], [w + [NUL] + x, y], vals[i + 1..]);
      assert vals[..i - 1] + [w, vals[i]] + vals[i + 1..] == vals;
      assert |other[i - 1]| > |vals[i - 1]|;
    }
  }

  // A NUL-free list of values is the only one of its length with its key.
  lemma OnlyList(vals: seq<string>, other: seq<string>)
    requires NulFree(vals) && vals != [] && |other| == |vals| && Joined(other) == Joined(vals)
    ensures other == vals
  {
    KeyParts(vals);
    KeyParts(other);
    PartsOfJoined(vals);
    PartsOfJoined(other);
  }

  // A key of n >= 2 values tells them, among all lists of n values, if and only if they are NUL-free.
  lemma KeyTellsExactly(vals: seq<string>)
    requires |vals| >= 2
    ensures NulFree(vals) <==> forall other :: |other| == |vals| && Joined(other) == Joined(vals) ==> other == vals
  {
    if NulFree(vals) {
      forall other | |other| == |vals| && Joined(other) == Joined(vals) ensures other == vals {
        OnlyList(vals, other);
      }
    } else {
      var other := OtherList(vals);
    }
  }

  // Some list with one value more has the same key if and only if there is a NUL in the values.
  lemma ClashesExactly(vals: seq<string>)
    requires vals != []
    ensures !NulFree(vals) <==> exists longer :: |longer| == |vals| + 1 && Joined(longer) == Joined(vals)
  {
    if NulFree(vals) {
      forall longer | |longer| == |vals| + 1 ensures Joined(longer) != Joined(vals) {
        KeyParts(vals);
        KeyParts(longer);
      }
    } else {
      var longer := LongerList(vals);
    }
  }

  // The attribute map: a later value of the same name replaces an earlier one.
  function Attributes(names: seq<string>, vals: seq<string>): map<string, string>
    requires |names| == |vals|
  {
    if names == [] then map[]
    else
      var n := |names| - 1;
      Attributes(names[..n], vals[..n])[names[n] := vals[n]]
  }

  ghost predicate DistinctNames(names: seq<string>) {
    forall i, j :: 0 <= i < j < |names| ==> names[i] != names[j]
  }

  // With distinct names every value is in the map under its name, and nothing else is.
  lemma {:induction false} AttributesComplete(names: seq<string>, vals: seq<string>)
    requires |names| == |vals| && DistinctNames(names)
    ensures forall i :: 0 <= i < |names| ==>
              names[i] in Attributes(names, vals) && Attributes(names, vals)[names[i]] == vals[i]
    ensures forall k :: k in Attributes(names, vals) ==> k in names
  {
    if names != [] {
      var n := |names| - 1;
      AttributesComplete(names[..n], vals[..n]);
      forall i | 0 <= i < |names|
        ensures names[i] in Attributes(names, vals) && Attributes(names, vals)[names[i]] == vals[i]
      {
        if i < n {
          assert names[..n][i] == names[i] && vals[..n][i] == vals[i] && names[i] != names[n];
        }
      }
    }
  }

  // With a name given twice the later value is the one in the map.
  lemma {:induction false} LaterValueWins(names: seq<string>, vals: seq<string>, i: nat)
    requires i < |names| == |vals| && forall j :: i < j < |names| ==> names[j] != names[i]
    ensures names[i] in Attributes(names, vals) && Attributes(names, vals)[names[i]] == vals[i]
  {
    var n := |names| - 1;
    if i < n {
      LaterValueWins(names[..n], vals[..n], i);
    }
  }

  lemma {:induction false} AttributesNames(names: seq<string>, vals: seq<string>)
    requires |names| == |vals|
    ensures forall k :: k in Attributes(names, vals) <==> k in names
  {
    if names != [] {
      var n := |names| - 1;
      AttributesNames(names[..n], vals[..n]);
      assert names == names[..n] + [names[n]];
    }
  }

  class ReusedKeyValue {
    const maxAttribute: nat
    const keys: array<string>
    const vals: array<string>
    var size: nat

    ghost predicate Valid()
      reads this
    {
      keys != vals && keys.Length == maxAttribute && vals.Length == maxAttribute && size <= maxAttribute
    }

    ghost function Names(): (names: seq<string>)
      requires Valid()
      reads this, keys
      ensures |names| == size
    {
      keys[..size]
    }

    ghost function Values(): (values: seq<string>)
      requires Valid()
      reads this, vals
      ensures |values| == size
    {
      vals[..size]
    }

    constructor (maxAttribute: nat)
      ensures Valid() && fresh(keys) && fresh(vals) && this.maxAttribute == maxAttribute
      ensures Names() == [] && Values() == []
    {
      this.maxAttribute := maxAttribute;
      keys := new string[maxAttribute](i => "");
      vals := new string[maxAttribute](i => "");
      size := 0;
    }

    method Reset()
      requires Valid()
      modifies this
      ensures Valid() && Names() == [] && Values() == []
    {
      size := 0;
    }

    // Attributes past the maximum are dropped.
    method Add(key: string, value: string)
      requires Valid()
      modifies this, keys, vals
      ensures Valid()
      ensures Names() == if old(size) < maxAttribute then old(Names()) + [key] else old(Names())
      ensures Values() == if old(size) < maxAttribute then old(Values()) + [value] else old(Values())
    {
      if size < maxAttribute {
        keys[size] := key;
        vals[size] := value;
        size := size + 1;
      }
    }

    method GetValue() returns (value: string)
      requires Valid()
      ensures value == Joined(Values())
    {
      value := "";
      for i := 0 to size
        invariant value == Joined(vals[..i])
      {
        assert vals[..i + 1][..i] == vals[..i];
        if i > 0 {
          value := value + [NUL];
        }
        value := value + vals[i];
      }
    }

    method GetMap() returns (dims: Dimensions)
      requires Valid()
      ensures dims == Dimensions(Attributes(Names(), Values()))
    {
      var attributes := map[];
      for i := 0 to size
        invariant attributes == Attributes(keys[..i], vals[..i])
      {
        assert keys[..i + 1][..i] == keys[..i] && vals[..i + 1][..i] == vals[..i];
        attributes := attributes[keys[i] := vals[i]];
      }
      dims := Dimensions(attributes);
    }
  }

  // ---------------------------------------------------------------- the four kinds of series

  const SERVER_NAMES := ["svc_name", "content_key", "node_name", "node_ip", "pid", "container_id", "top_span",
                         "is_error"]
  const EXTERNAL_NAMES :=
    ["svc_name", "content_key", "node_name", "node_ip", "pid", "container_id", "name", "address", "system", "is_error"]
  const DB_NAMES := ["svc_name", "content_key", "node_name", "node_ip", "pid", "container_id", "name", "db_system",
                     "db_name", "db_url", "is_error"]
  const MQ_NAMES := ["svc_name", "content_key", "node_name", "node_ip", "pid", "container_id", "name", "address",
                     "system", "role", "is_error"]

  lemma NamesAreDistinct()
    ensures DistinctNames(SERVER_NAMES) && DistinctNames(EXTERNAL_NAMES) && DistinctNames(DB_NAMES)
            && DistinctNames(MQ_NAMES)
  {
  }

  // strconv.FormatBool
  function FormatBool(b: bool): string {
    if b then "true" else "false"
  }

  // Two or three links of a chain of Add calls.
  method AddTwo(kv: ReusedKeyValue, k0: string, v0: string, k1: string, v1: string)
    requires kv.Valid() && kv.size + 2 <= kv.maxAttribute
    modifies kv, kv.keys, kv.vals
    ensures kv.Valid()
    ensures kv.Names() == old(kv.Names()) + [k0, k1]
    ensures kv.Values() == old(kv.Values()) + [v0, v1]
  {
    kv.Add(k0, v0);
    kv.Add(k1, v1);
  }

  method AddThree(kv: ReusedKeyValue, k0: string, v0: string, k1: string, v1: string, k2: string, v2: string)
    requires kv.Valid() && kv.size + 3 <= kv.maxAttribute
    modifies kv, kv.keys, kv.vals
    ensures kv.Valid()
    ensures kv.Names() == old(kv.Names()) + [k0, k1, k2]
    ensures kv.Values() == old(kv.Values()) + [v0, v1, v2]
  {
    kv.Add(k0, v0);
    kv.Add(k1, v1);
    kv.Add(k2, v2);
  }

  // The attributes all four kinds of series start with.
  method AddCommon(kv: ReusedKeyValue, serviceName: string, contentKey: string, nodeName: string, nodeIp: string,
                   pid: string, containerId: string)
    requires kv.Valid() && kv.maxAttribute == 100
    modifies kv, kv.keys, kv.vals
    ensures kv.Valid()
    ensures kv.Names() == ["svc_name", "content_key", "node_name", "node_ip", "pid", "container_id"]
    ensures kv.Values() == [serviceName, contentKey, nodeName, nodeIp, pid, containerId]
  {
    kv.Reset();
    AddThree(kv, "svc_name", serviceName, "content_key", contentKey, "node_name", nodeName);
    AddThree(kv, "node_ip", nodeIp, "pid", pid, "container_id", containerId);
  }

  method BuildServerKey(kv: ReusedKeyValue, nodeName: string, nodeIp: string, pid: string, containerId: string,
                        serviceName: string, name: string, topSpan: bool, isError: bool) returns (key: string)
    requires kv.Valid() && kv.maxAttribute == 100
    modifies kv, kv.keys, kv.vals
    ensures kv.Valid() && kv.Names() == SERVER_NAMES && key == Joined(kv.Values())
    ensures kv.Values() == [serviceName, name, nodeName, nodeIp, pid, containerId, FormatBool(topSpan),
                            FormatBool(isError)]
  {
    AddCommon(kv, serviceName, name, nodeName, nodeIp, pid, containerId);
    kv.Add("top_span", FormatBool(topSpan));
    kv.Add("is_error", FormatBool(isError));
    key := kv.GetValue();
  }

  method BuildExternalKey(kv: ReusedKeyValue, nodeName: string, nodeIp: string, pid: string, containerId: string,
                          serviceName: string, entryUrl: string, name: string, peer: string, system: string,
                          isError: bool)
    returns (key: string)
    requires kv.Valid() && kv.maxAttribute == 100
    modifies kv, kv.keys, kv.vals
    ensures kv.Valid() && kv.Names() == EXTERNAL_NAMES && key == Joined(kv.Values())
    ensures kv.Values()
         == [serviceName, entryUrl, nodeName, nodeIp, pid, containerId, name, peer, system, FormatBool(isError)]
  {
    AddCommon(kv, serviceName, entryUrl, nodeName, nodeIp, pid, containerId);
    AddThree(kv, "name", name, "address", peer, "system", system);
    kv.Add("is_error", FormatBool(isError));
    key := kv.GetValue();
  }

  method BuildDbKey(kv: ReusedKeyValue, nodeName: string, nodeIp: string, pid: string, containerId: string,
                    serviceName: string, entryUrl: string, dbSystem: string, dbName: string, name: string,
                    dbUrl: string,
                    isError: bool) returns (key: string)
    requires kv.Valid() && kv.maxAttribute == 100
    modifies kv, kv.keys, kv.vals
    ensures kv.Valid() && kv.Names() == DB_NAMES && key == Joined(kv.Values())
    ensures kv.Values()
         == [serviceName, entryUrl, nodeName, nodeIp, pid, containerId, name, dbSystem, dbName, dbUrl,
             FormatBool(isError)]
  {
    AddCommon(kv, serviceName, entryUrl, nodeName, nodeIp, pid, containerId);
    AddThree(kv, "name", name, "db_system", dbSystem, "db_name", dbName);
    AddTwo(kv, "db_url", dbUrl, "is_error", FormatBool(isError));
    key := kv.GetValue();
  }

  method BuildMqKey(kv: ReusedKeyValue, nodeName: string, nodeIp: string, pid: string, containerId: string,
                    serviceName: string, entryUrl: string, name: string, peer: string, mqSystem: string, isError: bool,
                    role: string) returns (key: string)
    requires kv.Valid() && kv.maxAttribute == 100
    modifies kv, kv.keys, kv.vals
    ensures kv.Valid() && kv.Names() == MQ_NAMES && key == Joined(kv.Values())
    ensures kv.Values()
         == [serviceName, entryUrl, nodeName, nodeIp, pid, containerId, name, peer, mqSystem, role, FormatBool(isError)]
  {
    AddCommon(kv, serviceName, entryUrl, nodeName, nodeIp, pid, containerId);
    AddThree(kv, "name", name, "address", peer, "system", mqSystem);
    AddTwo(kv, "role", role, "is_error", FormatBool(isError));
    key := kv.GetValue();
  }
}
