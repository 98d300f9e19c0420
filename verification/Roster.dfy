/**
 The camera roster (src/data/CameraStore.cpp:21-63): discovery replies add
 cameras, and a rebuild sorts them by server and local id and numbers them.
 */
module Roster {
  import opened Bytes
  import Decimal
  import Sorting

  datatype CameraInfo = CameraInfo(
    globalId: nat, server: nat, localId: U32, title: string, sensor: string, streaming: bool)

  type Key = (nat, U32)

  function KeyOf(c: CameraInfo): Key {
    (c.server, c.localId)
  }

  /** The order a rebuild sorts by. */
  predicate Before(a: Key, b: Key) {
    a.0 < b.0 || (a.0 == b.0 && a.1 < b.1)
  }

  /** Position of a camera, or the roster's length. */
  function Find(r: seq<CameraInfo>, k: Key): (i: nat)
    ensures i <= |r|
    ensures i < |r| ==> KeyOf(r[i]) == k
    ensures forall j | 0 <= j < i :: KeyOf(r[j]) != k
  {
    if r == [] || KeyOf(r[0]) == k then 0 else 1 + Find(r[1..], k)
  }

  function Added(r: seq<CameraInfo>, k: Key, sensor: string): seq<CameraInfo> {
    var i := Find(r, k);
    if i < |r| then r[i := r[i].(sensor := sensor)]
    else r + [CameraInfo(|r|, k.0, k.1, "", sensor, false)]
  }

  predicate Less(a: CameraInfo, b: CameraInfo) {
    Before(KeyOf(a), KeyOf(b))
  }

  function SortByKey(r: seq<CameraInfo>): (s: seq<CameraInfo>)
    ensures |s| == |r|
  {
    Sorting.SameElements(r, Sorting.Sorted(r, Less));
    Sorting.Sorted(r, Less)
  }

  function Numbered(c: CameraInfo, i: nat): CameraInfo {
    c.(globalId := i, title := "cam" + Decimal.ToString(i))
  }

  function Rebuilt(r: seq<CameraInfo>): (s: seq<CameraInfo>)
    ensures |s| == |r|
  {
    var sorted := SortByKey(r);
    seq(|sorted|, i requires 0 <= i < |sorted| => Numbered(sorted[i], i))
  }

  // ---- Reachable rosters ----

  datatype Op = Add(key: Key, sensor: string) | Rebuild | Clear

  function After(r: seq<CameraInfo>, op: Op): seq<CameraInfo> {
    match op
    case Add(k, sensor) => Added(r, k, sensor)
    case Rebuild => Rebuilt(r)
    case Clear => []
  }

  function AfterAll(r: seq<CameraInfo>, ops: seq<Op>): seq<CameraInfo>
    decreases |ops|
  {
    if ops == [] then r else AfterAll(After(r, ops[0]), ops[1..])
  }

  function KeySet(r: seq<CameraInfo>): set<Key> {
    set c | c in r :: KeyOf(c)
  }

  /** The cameras discovered since the last clear. */
  function Discovered(ks: set<Key>, ops: seq<Op>): set<Key>
    decreases |ops|
  {
    if ops == [] then ks else Discovered(Discover(ks, ops[0]), ops[1..])
  }

  function Discover(ks: set<Key>, op: Op): set<Key> {
    match op
    case Add(k, _) => ks + {k}
    case Rebuild => ks
    case Clear => {}
  }

  ghost predicate Unique(r: seq<CameraInfo>) {
    forall i, j | 0 <= i < j < |r| :: KeyOf(r[i]) != KeyOf(r[j])
  }

  ghost predicate InKeyOrder(r: seq<CameraInfo>) {
    forall i, j | 0 <= i < j < |r| :: Before(KeyOf(r[i]), KeyOf(r[j]))
  }

  /** Keys are unique and a camera's global id is its position. */
  ghost predicate RosterInv(r: seq<CameraInfo>) {
    Unique(r) && forall i | 0 <= i < |r| :: r[i].globalId == i
  }

  lemma {:induction false} UniqueHasNoTies(r: seq<CameraInfo>)
    requires Unique(r)
    ensures Sorting.NoTies(r, Less)
  {
    if r != [] {
      var tail := r[1..];
      assert forall i | 0 <= i < |tail| :: tail[i] == r[i + 1];
      UniqueHasNoTies(tail);
      forall y | y in tail ensures Less(r[0], y) || Less(y, r[0]) {
        var k :| 0 <= k < |tail| && tail[k] == y;
        assert r[k + 1] == y;
      }
    }
  }

  lemma SortSorts(r: seq<CameraInfo>)
    requires Unique(r)
    ensures InKeyOrder(SortByKey(r))
    ensures forall x :: x in SortByKey(r) <==> x in r
  {
    UniqueHasNoTies(r);
    Sorting.SortedIs(r, Less);
    Sorting.SameElements(r, SortByKey(r));
    forall i, j | 0 <= i < j < |r| ensures Less(SortByKey(r)[i], SortByKey(r)[j]) {
      Sorting.AscendingAt(SortByKey(r), Less, i, j);
    }
  }

  /** One camera under possibly different numbers and labels. */
  ghost predicate SameCamera(c: CameraInfo, d: CameraInfo) {
    KeyOf(c) == KeyOf(d) && c.sensor == d.sensor && c.streaming == d.streaming
  }

  /** The camera was in the roster, with this sensor and streaming flag. */
  ghost predicate CameFrom(r: seq<CameraInfo>, d: CameraInfo) {
    exists c :: c in r && SameCamera(c, d)
  }

  lemma RebuiltKeys(r: seq<CameraInfo>)
    requires Unique(r)
    ensures KeySet(Rebuilt(r)) == KeySet(r)
  {
    SortSorts(r);
    var s, t := SortByKey(r), Rebuilt(r);
    assert forall i | 0 <= i < |s| :: KeyOf(t[i]) == KeyOf(s[i]);
    hide InKeyOrder, Unique, SortByKey, Rebuilt;
    forall k | k in KeySet(r) ensures k in KeySet(t) {
      var c :| c in r && KeyOf(c) == k;
      var i :| 0 <= i < |s| && s[i] == c;
      assert t[i] in t && KeyOf(t[i]) == k;
    }
    forall k | k in KeySet(t) ensures k in KeySet(r) {
      var c :| c in t && KeyOf(c) == k;
      var i :| 0 <= i < |t| && t[i] == c;
      assert s[i] in r;
    }
  }

  lemma KeepsCamera(r: seq<CameraInfo>, i: nat)
    requires Unique(r) && i < |r|
    ensures CameFrom(r, Rebuilt(r)[i])
  {
    SortSorts(r);
    var c := SortByKey(r)[i];
    assert c in r && SameCamera(c, Rebuilt(r)[i]);
  }

  /** Servers in the order of the configuration, cameras of one by their ids. */
  ghost predicate ServerThenCamera(a: CameraInfo, b: CameraInfo) {
    a.server < b.server || (a.server == b.server && a.localId < b.localId)
  }

  /** A rebuild keeps the cameras, each with its sensor and its streaming flag,
      puts them in order, and numbers and labels them by position. */
  lemma RebuiltIs(r: seq<CameraInfo>)
    requires Unique(r)
    ensures RosterInv(Rebuilt(r)) && InKeyOrder(Rebuilt(r)) && KeySet(Rebuilt(r)) == KeySet(r)
    ensures forall i | 0 <= i < |r| :: Rebuilt(r)[i].title == "cam" + Decimal.ToString(i)
    ensures forall i | 0 <= i < |r| :: CameFrom(r, Rebuilt(r)[i])
    ensures forall i, j | 0 <= i < j < |r| :: ServerThenCamera(Rebuilt(r)[i], Rebuilt(r)[j])
  {
    SortSorts(r);
    RebuiltKeys(r);
    var s, t := SortByKey(r), Rebuilt(r);
    forall i | 0 <= i < |r| ensures CameFrom(r, Rebuilt(r)[i]) {
      KeepsCamera(r, i);
    }
    hide SortByKey, KeySet, Unique, CameFrom;
    forall i, j | 0 <= i < j < |t| ensures Before(KeyOf(t[i]), KeyOf(t[j])) {
      assert Before(KeyOf(s[i]), KeyOf(s[j]));
    }
    AscendingIsUnique(t);
  }

  lemma AscendingIsUnique(r: seq<CameraInfo>)
    requires InKeyOrder(r)
    ensures Unique(r)
  {
    forall i, j | 0 <= i < j < |r| ensures KeyOf(r[i]) != KeyOf(r[j]) {
      assert Before(KeyOf(r[i]), KeyOf(r[j]));
    }
  }

  lemma RebuiltKeepsInv(r: seq<CameraInfo>)
    requires RosterInv(r)
    ensures RosterInv(Rebuilt(r))
  {
    RebuiltIs(r);
  }

  lemma AddedIs(r: seq<CameraInfo>, k: Key, sensor: string)
    requires RosterInv(r)
    ensures RosterInv(Added(r, k, sensor)) && KeySet(Added(r, k, sensor)) == KeySet(r) + {k}
  {
    var i, s := Find(r, k), Added(r, k, sensor);
    assert forall j | 0 <= j < |r| :: KeyOf(s[j]) == KeyOf(r[j]) && s[j].globalId == r[j].globalId;
    assert |s| > |r| ==> KeyOf(s[|r|]) == k;
    forall x | x in KeySet(r) + {k} ensures x in KeySet(s) {
      if x in KeySet(r) {
        var c :| c in r && KeyOf(c) == x;
        var j :| 0 <= j < |r| && r[j] == c;
        assert s[j] in s && KeyOf(s[j]) == x;
      } else {
        assert s[i] in s && KeyOf(s[i]) == x;
      }
    }
    forall x | x in KeySet(s) ensures x in KeySet(r) + {k} {
      var c :| c in s && KeyOf(c) == x;
      var j :| 0 <= j < |s| && s[j] == c;
      if j < |r| {
        assert r[j] in r;
      }
    }
  }

  lemma AfterIs(r: seq<CameraInfo>, op: Op)
    requires RosterInv(r)
    ensures RosterInv(After(r, op)) && KeySet(After(r, op)) == Discover(KeySet(r), op)
  {
    match op
    case Add(k, sensor) => AddedIs(r, k, sensor);
    case Rebuild => RebuiltIs(r);
    case Clear => assert KeySet([]) == {};
  }

  /** In every reachable roster keys are unique, global ids are positions, and
      the cameras are exactly those discovered. */
  lemma {:induction false} ReachableRoster(r: seq<CameraInfo>, ops: seq<Op>)
    requires RosterInv(r)
    ensures RosterInv(AfterAll(r, ops)) && KeySet(AfterAll(r, ops)) == Discovered(KeySet(r), ops)
    decreases |ops|
  {
    hide RosterInv, After, KeySet, Discover;
    if ops != [] {
      AfterIs(r, ops[0]);
      ReachableRoster(After(r, ops[0]), ops[1..]);
    }
  }

  // ---- Sensors ----

  /** A camera of this key is in the roster, with this sensor. */
  ghost predicate HasSensor(r: seq<CameraInfo>, k: Key, sensor: string) {
    exists i :: 0 <= i < |r| && KeyOf(r[i]) == k && r[i].sensor == sensor
  }

  /** Adding a camera gives it the sensor and no other camera another. */
  lemma AddedSensor(r: seq<CameraInfo>, k: Key, sensor: string, l: Key, other: string)
    ensures HasSensor(Added(r, k, sensor), k, sensor)
    ensures HasSensor(r, l, other) && l != k ==> HasSensor(Added(r, k, sensor), l, other)
  {
    var i, s := Find(r, k), Added(r, k, sensor);
    assert KeyOf(s[i]) == k && s[i].sensor == sensor;
    if HasSensor(r, l, other) && l != k {
      var j :| 0 <= j < |r| && KeyOf(r[j]) == l && r[j].sensor == other;
      assert s[j] == r[j];
    }
  }

  /** A rebuild changes no camera's sensor. */
  lemma RebuiltSensor(r: seq<CameraInfo>, k: Key, sensor: string)
    requires Unique(r) && HasSensor(r, k, sensor)
    ensures HasSensor(Rebuilt(r), k, sensor)
  {
    SortSorts(r);
    var s, t := SortByKey(r), Rebuilt(r);
    var i :| 0 <= i < |r| && KeyOf(r[i]) == k && r[i].sensor == sensor;
    assert r[i] in s;
    var j :| 0 <= j < |s| && s[j] == r[i];
    assert KeyOf(t[j]) == k && t[j].sensor == sensor;
  }

  // ---- Confluence ----

  lemma FirstIsLeast(r: seq<CameraInfo>, s: seq<CameraInfo>)
    requires InKeyOrder(r) && InKeyOrder(s) && KeySet(r) == KeySet(s) && r != []
    ensures s != [] && KeyOf(r[0]) == KeyOf(s[0])
    ensures KeySet(r[1..]) == KeySet(r) - {KeyOf(r[0])}
  {
    assert KeyOf(r[0]) in KeySet(r) && r[0] in r;
    var c :| c in s && KeyOf(c) == KeyOf(r[0]);
    var j :| 0 <= j < |s| && s[j] == c;
    assert s[0] in s && KeyOf(s[0]) in KeySet(s);
    var d :| d in r && KeyOf(d) == KeyOf(s[0]);
    var i :| 0 <= i < |r| && r[i] == d;
    forall k | k in KeySet(r[1..]) ensures k in KeySet(r) && k != KeyOf(r[0]) {
      var e :| e in r[1..] && KeyOf(e) == k;
      var m :| 0 <= m < |r| - 1 && r[1..][m] == e;
      assert r[m + 1] == e && e in r;
    }
    forall k | k in KeySet(r) && k != KeyOf(r[0]) ensures k in KeySet(r[1..]) {
      var e :| e in r && KeyOf(e) == k;
      var m :| 0 <= m < |r| && r[m] == e;
      assert r[1..][m - 1] == e;
    }
  }

  lemma NoKeys(r: seq<CameraInfo>)
    ensures KeySet(r) == {} <==> r == []
  {
    if r != [] {
      assert r[0] in r && KeyOf(r[0]) in KeySet(r);
    }
  }

  lemma {:induction false} AscendingIsDetermined(r: seq<CameraInfo>, s: seq<CameraInfo>)
    requires InKeyOrder(r) && InKeyOrder(s) && KeySet(r) == KeySet(s)
    ensures |r| == |s| && forall i | 0 <= i < |r| :: KeyOf(r[i]) == KeyOf(s[i])
  {
    NoKeys(r);
    NoKeys(s);
    if r != [] {
      FirstIsLeast(r, s);
      FirstIsLeast(s, r);
      hide KeySet;
      AscendingIsDetermined(r[1..], s[1..]);
      assert forall i | 0 < i < |r| :: r[i] == r[1..][i - 1] && s[i] == s[1..][i - 1];
    }
  }

  /** What a rebuild decides about a camera. */
  function Identity(c: CameraInfo): (nat, Key, string) {
    (c.globalId, KeyOf(c), c.title)
  }

  /** After a rebuild the order, the numbers and the labels depend only on
      which cameras were discovered: not on the order of the replies, their
      repetition, earlier rebuilds in between, or the reported sensors. */
  lemma RosterConfluence(r: seq<CameraInfo>, s: seq<CameraInfo>, opsR: seq<Op>, opsS: seq<Op>)
    requires RosterInv(r) && RosterInv(s)
    requires Discovered(KeySet(r), opsR) == Discovered(KeySet(s), opsS)
    ensures var x, y := Rebuilt(AfterAll(r, opsR)), Rebuilt(AfterAll(s, opsS));
            |x| == |y| && forall i | 0 <= i < |x| :: Identity(x[i]) == Identity(y[i])
  {
    ReachableRoster(r, opsR);
    ReachableRoster(s, opsS);
    hide AfterAll, Discovered;
    RebuiltIs(AfterAll(r, opsR));
    RebuiltIs(AfterAll(s, opsS));
    hide Rebuilt;
    AscendingIsDetermined(Rebuilt(AfterAll(r, opsR)), Rebuilt(AfterAll(s, opsS)));
  }
}
