// The value lists a connector can build, and which external lists share their key with a DB list.
module ServedKeys {
  import opened DimensionKeys

  // What is fixed for the process: two values of its environment, which holds no NUL, and whether entry
  // URLs are matched. Without matching the URL of every call is empty.
  datatype Node = Node(name: string, ip: string, matching: bool) {
    predicate Valid() {
      NUL !in name && NUL !in ip
    }
  }

  const MAX_INT64 := 0x7fff_ffff_ffff_ffff

  // strconv.FormatInt, for a number that is not negative
  function Decimal(n: nat): string {
    (if n < 10 then "" else Decimal(n / 10)) + [('0' as int + n % 10) as char]
  }

  ghost predicate IsPid(s: string) {
    exists n: nat :: 0 < n <= MAX_INT64 && s == Decimal(n)
  }

  // Every list starts with a service name, then a URL or name, the node, a positive pid and a container
  // id cut to twelve characters, and ends with whether the span failed.
  ghost predicate Served(node: Node, fields: seq<string>) {
    && |fields| >= 8
    && fields[0] != "" && fields[2] == node.name && fields[3] == node.ip
    && IsPid(fields[4]) && |fields[5]| <= 12
    && fields[|fields| - 1] in {"true", "false"}
  }

  // The list of a DB, external or MQ call has the entry URL in the second place.
  ghost predicate ServedCall(node: Node, fields: seq<string>) {
    Served(node, fields) && (node.matching || fields[1] == "")
  }

  // Some DB list of this node has the key of the external list e.
  ghost predicate Clashes(node: Node, e: seq<string>) {
    exists d :: |d| == 11 && ServedCall(node, d) && Joined(d) == Joined(e)
  }

  // ---------------------------------------------------------------- cutting and regrouping a key

  // One more character of a key.
  function Extended(vals: seq<string>, c: char): (more: seq<string>)
    requires vals != []
    ensures more != []
  {
    if c == NUL then vals + [""] else vals[..|vals| - 1] + [vals[|vals| - 1] + [c]]
  }

  lemma PartsOneMore(s: string, c: char)
    ensures Parts(s + [c]) == Extended(Parts(s), c)
  {
    assert (s + [c])[..|s|] == s;
  }

  lemma ExtendedBehind(a: seq<string>, b: seq<string>, c: char)
    requires b != []
    ensures Extended(a + b, c) == a + Extended(b, c)
  {
    assert (a + b)[..|a + b| - 1] == a + b[..|b| - 1];
  }

  lemma ConcatOneMore(s: string, t: string, c: char)
    requires Parts(s + [NUL] + t) == Parts(s) + Parts(t)
    ensures Parts(s + [NUL] + (t + [c])) == Parts(s) + Parts(t + [c])
  {
    var st := s + [NUL] + t;
    assert s + [NUL] + (t + [c]) == st + [c];
    PartsOneMore(st, c);
    PartsOneMore(t, c);
    ExtendedBehind(Parts(s), Parts(t), c);
  }

  lemma {:induction false} PartsConcat(s: string, t: string)
    ensures Parts(s + [NUL] + t) == Parts(s) + Parts(t)
  {
    if t == "" {
      PartsOneMore(s, NUL);
      assert s + [NUL] + t == s + [NUL];
    } else {
      PartsConcat(s, t[..|t| - 1]);
      ConcatOneMore(s, t[..|t| - 1], t[|t| - 1]);
      assert t == t[..|t| - 1] + [t[|t| - 1]];
    }
  }

  lemma SplitParts(vals: seq<string>, i: nat)
    requires 0 < i < |vals|
    ensures Parts(Joined(vals)) == Parts(Joined(vals[..i])) + Parts(Joined(vals[i..]))
  {
    assert vals == vals[..i] + vals[i..];
    JoinedConcat(vals[..i], vals[i..]);
    PartsConcat(Joined(vals[..i]), Joined(vals[i..]));
  }

  lemma SplitFirst(vals: seq<string>)
    requires |vals| >= 2
    ensures Parts(Joined(vals)) == Parts(vals[0]) + Parts(Joined(vals[1..]))
  {
    SplitParts(vals, 1);
    assert vals[..1] == [vals[0]];
  }

  // The parts of a key have no NUL, are no longer than the key, and give the key back.
  lemma {:induction false} PartsGiveBack(s: string)
    ensures NulFree(Parts(s)) && Joined(Parts(s)) == s && |Parts(s)[0]| <= |s|
  {
    if s != "" {
      var n := |s| - 1;
      PartsGiveBack(s[..n]);
      PartsOneMore(s[..n], s[n]);
      assert s == s[..n] + [s[n]];
      ExtendedJoins(Parts(s[..n]), s[n]);
    }
  }

  lemma ExtendedJoins(vals: seq<string>, c: char)
    requires vals != [] && NulFree(vals)
    ensures NulFree(Extended(vals, c)) && Joined(Extended(vals, c)) == Joined(vals) + [c]
    ensures |Extended(vals, c)[0]| <= |vals[0]| + 1
  {
    var more, n := Extended(vals, c), |vals| - 1;
    if c == NUL {
      assert more[..|vals|] == vals;
    } else {
      assert more[..n] == vals[..n] && more[n] == vals[n] + [c];
      assert forall i :: 0 <= i < n ==> more[i] == vals[i];
    }
  }

  // Some values in a row can be joined into one.
  lemma Grouped(before: seq<string>, group: seq<string>, after: seq<string>)
    requires group != []
    ensures Joined(before + [Joined(group)] + after) == Joined(before + group + after)
  {
    JoinedMiddle(before, group, [Joined(group)], after);
  }

  lemma {:induction false} DecimalHasNoNul(n: nat)
    ensures NUL !in Decimal(n) && Decimal(n) != ""
  {
    if n >= 10 {
      DecimalHasNoNul(n / 10);
    }
  }

  lemma FlagHasNoNul(s: string)
    requires s in {"true", "false"}
    ensures NUL !in s
  {
  }

  lemma NodeAndPid(node: Node, fields: seq<string>)
    requires node.Valid() && Served(node, fields)
    ensures Parts(node.name) == [node.name] && Parts(node.ip) == [node.ip] && Parts(fields[4]) == [fields[4]]
  {
    var n: nat :| 0 < n <= MAX_INT64 && fields[4] == Decimal(n);
    DecimalHasNoNul(n);
    PartsOfOne(node.name);
    PartsOfOne(node.ip);
    PartsOfOne(fields[4]);
  }

  // The parts of a served list: the node and the pid are parts of their own.
  lemma ServedParts(node: Node, fields: seq<string>)
    requires node.Valid() && Served(node, fields)
    ensures Parts(Joined(fields))
         == Parts(fields[0]) + Parts(fields[1]) + [node.name, node.ip, fields[4]] + Parts(Joined(fields[5..]))
  {
    NodeAndPid(node, fields);
    SplitFirst(fields);
    SplitFirst(fields[1..]);
    SplitFirst(fields[2..]);
    SplitFirst(fields[3..]);
    SplitFirst(fields[4..]);
    assert fields[1..][1..] == fields[2..] && fields[2..][1..] == fields[3..];
    assert fields[3..][1..] == fields[4..] && fields[4..][1..] == fields[5..];
    FiveAndRest(Parts(fields[0]), Parts(fields[1]), node.name, node.ip, fields[4], Parts(Joined(fields[5..])));
  }

  lemma FiveAndRest(a: seq<string>, b: seq<string>, x: string, y: string, z: string, rest: seq<string>)
    ensures a + (b + ([x] + ([y] + ([z] + rest)))) == a + b + [x, y, z] + rest
  {
  }

  // The failure flag is the last part.
  lemma LastPart(fields: seq<string>)
    requires |fields| >= 2 && NUL !in fields[|fields| - 1]
    ensures var p := Parts(Joined(fields)); p[|p| - 1] == fields[|fields| - 1]
  {
    var n := |fields| - 1;
    SplitParts(fields, n);
    assert fields[n..] == [fields[n]];
    PartsOfOne(fields[n]);
  }

  // ---------------------------------------------------------------- when a DB list has the key

  // The parts p of a key can be read as a DB list: a parts for the service name, the URL up to part j,
  // then the node, a pid, a container id and enough for the rest.
  ghost predicate ReadsAsDb(node: Node, p: seq<string>, a: int, j: int) {
    && 1 <= a < j <= |p| - 9
    && Joined(p[..a]) != "" && (node.matching || Joined(p[a..j]) == "")
    && p[j] == node.name && p[j + 1] == node.ip && IsPid(p[j + 2]) && |p[j + 3]| <= 12
  }

  lemma BehindThePid(d: seq<string>)
    requires |d| == 11
    ensures var rest := Parts(Joined(d[5..])); |rest| >= 6 && |rest[0]| <= |d[5]|
  {
    SplitFirst(d[5..]);
    KeyParts(d[5..]);
    PartsGiveBack(d[5]);
  }

  lemma ClashReadsAsDb(node: Node, d: seq<string>)
    requires node.Valid() && |d| == 11 && ServedCall(node, d)
    ensures ReadsAsDb(node, Parts(Joined(d)), |Parts(d[0])|, |Parts(d[0])| + |Parts(d[1])|)
  {
    ServedParts(node, d);
    PartsGiveBack(d[0]);
    PartsGiveBack(d[1]);
    BehindThePid(d);
    PartsRead(node, Parts(d[0]), Parts(d[1]), d[4], Parts(Joined(d[5..])));
  }

  lemma PartsRead(node: Node, a: seq<string>, b: seq<string>, pid: string, rest: seq<string>)
    requires a != [] && b != [] && |rest| >= 6 && |rest[0]| <= 12 && IsPid(pid)
    requires Joined(a) != "" && (node.matching || Joined(b) == "")
    ensures ReadsAsDb(node, a + b + [node.name, node.ip, pid] + rest, |a|, |a| + |b|)
  {
    var p := a + b + [node.name, node.ip, pid] + rest;
    assert p[..|a|] == a && p[|a|..|a| + |b|] == b;
    assert p[|a| + |b| + 3] == rest[0];
  }

  // The DB list that such parts are read as.
  function AsDb(p: seq<string>, a: int, j: int): seq<string>
    requires 1 <= a < j <= |p| - 9
  {
    [Joined(p[..a]), Joined(p[a..j])] + RestAsDb(p[j..])
  }

  function RestAsDb(p: seq<string>): seq<string>
    requires 9 <= |p|
  {
    p[..4] + [Joined(p[4..|p| - 4])] + p[|p| - 4..]
  }

  lemma AsDbHasTheKey(p: seq<string>, a: int, j: int)
    requires 1 <= a < j <= |p| - 9
    ensures |AsDb(p, a, j)| == 11 && Joined(AsDb(p, a, j)) == Joined(p)
  {
    RestHasTheKey(p[j..]);
    TwoAndRest(p[..a], p[a..j], RestAsDb(p[j..]), p[j..]);
    assert p[..a] + p[a..j] + p[j..] == p;
  }

  lemma TwoAndRest(a: seq<string>, b: seq<string>, rest: seq<string>, q: seq<string>)
    requires a != [] && b != [] && rest != [] && q != [] && Joined(rest) == Joined(q)
    ensures Joined([Joined(a), Joined(b)] + rest) == Joined(a + b + q)
  {
    JoinedConcat([Joined(a), Joined(b)], rest);
    JoinedConcat(a + b, q);
    JoinedPair(Joined(a), Joined(b));
    JoinedConcat(a, b);
  }

  lemma RestHasTheKey(p: seq<string>)
    requires 9 <= |p|
    ensures |RestAsDb(p)| == 9 && Joined(RestAsDb(p)) == Joined(p)
  {
    Grouped(p[..4], p[4..|p| - 4], p[|p| - 4..]);
    assert p[..4] + p[4..|p| - 4] + p[|p| - 4..] == p;
  }

  lemma ReadIsServed(node: Node, p: seq<string>, a: int, j: int)
    requires ReadsAsDb(node, p, a, j) && p[|p| - 1] in {"true", "false"}
    ensures ServedCall(node, AsDb(p, a, j))
  {
    var d := AsDb(p, a, j);
    assert |d| == 11 && d[2] == p[j] && d[3] == p[j + 1] && d[4] == p[j + 2] && d[5] == p[j + 3] && d[10] == p[|p| - 1];
  }

  // A DB list of this node has the key of an external one if and only if the parts of the key can be
  // read as one, which takes two numbers below their count to say.
  lemma ClashesExactly(node: Node, e: seq<string>)
    requires node.Valid() && |e| == 10 && ServedCall(node, e)
    ensures Clashes(node, e) <==> exists a, j :: ReadsAsDb(node, Parts(Joined(e)), a, j)
  {
    var p := Parts(Joined(e));
    if Clashes(node, e) {
      var d :| |d| == 11 && ServedCall(node, d) && Joined(d) == Joined(e);
      ClashReadsAsDb(node, d);
    }
    if a, j :| ReadsAsDb(node, p, a, j) {
      FlagHasNoNul(e[9]);
      LastPart(e);
      PartsGiveBack(Joined(e));
      AsDbHasTheKey(p, a, j);
      ReadIsServed(node, p, a, j);
    }
  }

  // A clash takes a NUL.
  lemma CleanNeverClashes(node: Node, e: seq<string>)
    requires |e| == 10 && NulFree(e)
    ensures !Clashes(node, e)
  {
    if d :| |d| == 11 && ServedCall(node, d) && Joined(d) == Joined(e) {
      KeyParts(d);
      KeyParts(e);
    }
  }

  // A NUL behind the pid always makes one: in the container id, the name, the address or the system.
  lemma LaterNulClashes(node: Node, e: seq<string>, i: nat)
    requires |e| == 10 && ServedCall(node, e) && 5 <= i <= 8 && NUL in e[i]
    ensures Clashes(node, e)
  {
    var j :| 0 <= j < |e[i]| && e[i][j] == NUL;
    var x, y := e[i][..j], e[i][j + 1..];
    assert e[i] == x + [NUL] + y;
    var d := e[..i] + [x, y] + e[i + 1..];
    JoinedPair(x, y);
    JoinedMiddle(e[..i], [e[i]], [x, y], e[i + 1..]);
    assert e[..i] + [e[i]] + e[i + 1..] == e;
    assert d[10] == e[9] && d[4] == e[4];
    assert |d| == 11 && ServedCall(node, d) && Joined(d) == Joined(e);
  }

  // A NUL in the service name or the entry URL makes none as long as no part of these is the name of
  // the node.
  lemma EarlyNulIsSound(node: Node, e: seq<string>)
    requires node.Valid() && |e| == 10 && ServedCall(node, e)
    requires forall i :: 5 <= i <= 8 ==> NUL !in e[i]
    requires node.name !in Parts(e[0]) && node.name !in Parts(e[1])
    ensures !Clashes(node, e)
  {
    var p := Parts(Joined(e));
    ServedParts(node, e);
    forall i | 0 <= i < 5 ensures NUL !in e[5..][i] {
      assert i < 4 ==> NUL !in e[5 + i];
    }
    PartsOfJoined(e[5..]);
    ClashesExactly(node, e);
    if a, j :| ReadsAsDb(node, p, a, j) {
      NodeComesLater(node, Parts(e[0]), Parts(e[1]), e[4], e[5..], j);
    }
  }

  lemma NodeComesLater(node: Node, a: seq<string>, b: seq<string>, pid: string, rest: seq<string>, j: int)
    requires |rest| == 5 && node.name !in a && node.name !in b
    requires 0 <= j <= |a| + |b| + 8 - 9
    ensures (a + b + [node.name, node.ip, pid] + rest)[j] != node.name
  {
    assert (a + b + [node.name, node.ip, pid] + rest)[j] == (a + b)[j];
    assert (a + b)[j] in a || (a + b)[j] in b;
  }

  // So a NUL is not enough for a clash: one put into the service name of a NUL-free list.
  lemma DirtyServiceName(node: Node, e: seq<string>, x: string, y: string)
    requires node.Valid() && |e| == 10 && ServedCall(node, e) && NulFree(e) && NulFree([x, y])
    requires node.name !in [x, y, e[1]]
    ensures var dirty := e[0 := x + [NUL] + y];
            ServedCall(node, dirty) && !NulFree(dirty) && !Clashes(node, dirty)
  {
    var dirty := e[0 := x + [NUL] + y];
    assert dirty[0][|x|] == NUL;
    assert [x, y][0] == x && [x, y][1] == y;
    PartsOfTwo(x, y);
    PartsOfOne(e[1]);
    EarlyNulIsSound(node, dirty);
  }

  lemma PartsOfTwo(x: string, y: string)
    requires NUL !in x && NUL !in y
    ensures Parts(x + [NUL] + y) == [x, y]
  {
    PartsConcat(x, y);
    PartsOfOne(x);
    PartsOfOne(y);
  }
}
