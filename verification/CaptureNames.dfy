/**
 How a saved capture's files are named (src/data/CaptureSaver.cpp:83-98 and
 255-276): per server address, a run number that goes up when a capture id is
 seen again for a camera, and a base name made of camera, frame and run.
 */
module CaptureNames {
  import opened Bytes
  import Decimal
  import opened Seqs

  /** What of a frame its name depends on. */
  datatype Shot = Shot(kind: Byte, capture: U16, camera: U32, frameId: U32)

  /** A server's directory: the run, and the keys seen in it. */
  datatype ServerDir = ServerDir(run: nat, seen: set<string>)

  const NEW_DIR := ServerDir(0, {})

  function Key(s: Shot): string {
    Decimal.ToString(s.kind) + (":" + (Decimal.ToString(s.capture) + (":" + Decimal.ToString(s.camera))))
  }

  function Base(s: Shot, run: nat): string {
    "cam" + (Decimal.ToString(s.camera) + ("-" + (Decimal.ToString(s.frameId) + RunSuffix(run))))
  }

  /** A key seen again -- a capture id of a kind, again for the same camera --
      starts a new run. */
  function Noted(d: ServerDir, key: string): ServerDir {
    if key in d.seen then ServerDir(d.run + 1, {key}) else ServerDir(d.run, d.seen + {key})
  }

  /** A server's directory, and the run each capture so far was saved under. */
  datatype Writes = Writes(dir: ServerDir, runs: seq<nat>)

  function Written(w: Writes, key: string): Writes {
    var d := Noted(w.dir, key);
    Writes(d, w.runs + [d.run])
  }

  function WrittenAll(keys: seq<string>): Writes {
    if keys == [] then Writes(NEW_DIR, []) else Written(WrittenAll(keys[..|keys| - 1]), keys[|keys| - 1])
  }

  function Keys(shots: seq<Shot>): (keys: seq<string>)
    ensures |keys| == |shots|
  {
    seq(|shots|, i requires 0 <= i < |shots| => Key(shots[i]))
  }

  function Runs(shots: seq<Shot>): (runs: seq<nat>)
    ensures |runs| == |shots|
  {
    RunsFor(Keys(shots));
    WrittenAll(Keys(shots)).runs
  }

  lemma {:induction false} RunsFor(keys: seq<string>)
    ensures |WrittenAll(keys).runs| == |keys|
  {
    if keys != [] {
      RunsFor(keys[..|keys| - 1]);
    }
  }

  // ---- Keys and base names are injective ----

  lemma KeyInjective(s: Shot, t: Shot)
    ensures Key(s) == Key(t) <==> s.kind == t.kind && s.capture == t.capture && s.camera == t.camera
  {
    if Key(s) == Key(t) {
      var k, l := Decimal.ToString(s.kind), Decimal.ToString(t.kind);
      Decimal.SplitAtMark(k, Key(s)[|k|..], l, Key(t)[|l|..]);
      Decimal.ToStringInjective(s.kind, t.kind);
      var x := Decimal.ToString(s.capture) + (":" + Decimal.ToString(s.camera));
      var y := Decimal.ToString(t.capture) + (":" + Decimal.ToString(t.camera));
      assert x == (":" + x)[1..] && y == (":" + y)[1..];
      Decimal.SplitAtMark(
        Decimal.ToString(s.capture), ":" + Decimal.ToString(s.camera),
        Decimal.ToString(t.capture), ":" + Decimal.ToString(t.camera));
      Decimal.ToStringInjective(s.capture, t.capture);
      assert Decimal.ToString(s.camera) == (":" + Decimal.ToString(s.camera))[1..];
      assert Decimal.ToString(t.camera) == (":" + Decimal.ToString(t.camera))[1..];
      Decimal.ToStringInjective(s.camera, t.camera);
    }
  }

  /** A number, a mark and the rest, read back: used three times below. */
  lemma NumberThenRest(n: nat, x: string, m: nat, y: string)
    requires x == [] || !Decimal.IsDigit(x[0])
    requires y == [] || !Decimal.IsDigit(y[0])
    requires Decimal.ToString(n) + x == Decimal.ToString(m) + y
    ensures n == m && x == y
  {
    Decimal.SplitAtMark(Decimal.ToString(n), x, Decimal.ToString(m), y);
    Decimal.ToStringInjective(n, m);
  }

  lemma AfterPrefix(p: string, x: string, y: string)
    requires p + x == p + y
    ensures x == y
  {
    assert (p + x)[|p|..] == x && (p + y)[|p|..] == y;
  }

  function RunSuffix(run: nat): string {
    if run > 0 then "-run" + Decimal.ToString(run) else ""
  }

  /** File name with its extension, for any extension that starts with a dot. */
  function File(s: Shot, run: nat, ext: string): string {
    Base(s, run) + ext
  }

  /** A file name tells the camera, the frame, the run and the extension. */
  lemma FileInjective(s: Shot, r: nat, e: string, t: Shot, q: nat, f: string)
    requires e != [] && e[0] == '.' && f != [] && f[0] == '.'
    ensures File(s, r, e) == File(t, q, f) <==> s.camera == t.camera && s.frameId == t.frameId && r == q && e == f
  {
    FileIs(s, r, e);
    FileIs(t, q, f);
    if File(s, r, e) == File(t, q, f) {
      AfterPrefix("cam", AfterCam(s, r, e), AfterCam(t, q, f));
      NumberThenRest(s.camera, "-" + AfterDash(s, r, e), t.camera, "-" + AfterDash(t, q, f));
      AfterPrefix("-", AfterDash(s, r, e), AfterDash(t, q, f));
      NumberThenRest(s.frameId, RunSuffix(r) + e, t.frameId, RunSuffix(q) + f);
      SuffixInjective(r, e, q, f);
    }
  }

  function AfterDash(s: Shot, r: nat, e: string): string {
    Decimal.ToString(s.frameId) + (RunSuffix(r) + e)
  }

  function AfterCam(s: Shot, r: nat, e: string): string {
    Decimal.ToString(s.camera) + ("-" + AfterDash(s, r, e))
  }

  lemma FileIs(s: Shot, r: nat, e: string)
    ensures File(s, r, e) == "cam" + AfterCam(s, r, e)
  {
    var c, n, x := Decimal.ToString(s.camera), Decimal.ToString(s.frameId), RunSuffix(r);
    Regroup("cam", c + ("-" + (n + x)), e);
    Regroup(c, "-" + (n + x), e);
    Regroup("-", n + x, e);
    Regroup(n, x, e);
  }

  lemma SuffixInjective(r: nat, e: string, q: nat, f: string)
    requires e != [] && e[0] == '.' && f != [] && f[0] == '.'
    requires RunSuffix(r) + e == RunSuffix(q) + f
    ensures r == q && e == f
  {
    assert "" + e == e && "" + f == f;
    assert (RunSuffix(r) + e)[0] == if r > 0 then '-' else '.';
    assert (RunSuffix(q) + f)[0] == if q > 0 then '-' else '.';
    if r > 0 {
      var x, y := Decimal.ToString(r), Decimal.ToString(q);
      Regroup("-run", x, e);
      Regroup("-run", y, f);
      AfterPrefix("-run", x + e, y + f);
      NumberThenRest(r, e, q, f);
    }
  }

  // ---- Over a sequence of captures ----

  /** The keys seen are those of the current run; runs never go down, and no
      key comes twice in a run. */
  ghost predicate WritesInv(w: Writes, keys: seq<string>) {
    |w.runs| == |keys| && SeenInRun(w, keys) && RunsAscend(w, keys)
  }

  ghost predicate SeenInRun(w: Writes, keys: seq<string>) {
    forall k :: k in w.dir.seen <==> InRun(w, keys, k)
  }

  ghost predicate RunsAscend(w: Writes, keys: seq<string>)
    requires |w.runs| == |keys|
  {
    && (forall i | 0 <= i < |keys| :: w.runs[i] <= w.dir.run)
    && (forall i, j | 0 <= i < j < |keys| :: w.runs[i] <= w.runs[j])
    && (forall i, j | 0 <= i < j < |keys| && w.runs[i] == w.runs[j] :: keys[i] != keys[j])
  }

  /** A capture of the current run has this key. */
  ghost predicate InRun(w: Writes, keys: seq<string>, k: string) {
    exists i :: 0 <= i < |keys| && i < |w.runs| && w.runs[i] == w.dir.run && keys[i] == k
  }

  lemma SeenStays(w: Writes, keys: seq<string>, key: string, k: string)
    requires WritesInv(w, keys)
    ensures k in Written(w, key).dir.seen <==> InRun(Written(w, key), keys + [key], k)
  {
    hide RunsAscend;
    var v, more, n := Written(w, key), keys + [key], |keys|;
    assert more[n] == key && v.runs[n] == v.dir.run;
    AtMostTheRun(w, keys);
    if InRun(w, keys, k) && v.dir.run == w.dir.run {
      var i :| 0 <= i < n && w.runs[i] == w.dir.run && keys[i] == k;
      assert v.runs[i] == v.dir.run && more[i] == k;
    }
    if InRun(v, more, k) && k != key {
      var i :| 0 <= i <= n && v.runs[i] == v.dir.run && more[i] == k;
      assert w.runs[i] == w.dir.run && keys[i] == k;
    }
  }

  lemma AtMostTheRun(w: Writes, keys: seq<string>)
    requires WritesInv(w, keys)
    ensures forall i | 0 <= i < |keys| :: w.runs[i] <= w.dir.run
  {
  }

  lemma RunsStay(w: Writes, keys: seq<string>, key: string)
    requires WritesInv(w, keys)
    ensures RunsAscend(Written(w, key), keys + [key])
  {
    var v, more, n := Written(w, key), keys + [key], |keys|;
    forall i | 0 <= i < n && v.runs[i] == v.runs[n] ensures more[i] != key {
      assert w.runs[i] == w.dir.run ==> InRun(w, keys, keys[i]);
    }
  }

  lemma WrittenKeeps(w: Writes, keys: seq<string>, key: string)
    requires WritesInv(w, keys)
    ensures WritesInv(Written(w, key), keys + [key])
  {
    RunsStay(w, keys, key);
    forall k ensures k in Written(w, key).dir.seen <==> InRun(Written(w, key), keys + [key], k) {
      SeenStays(w, keys, key, k);
    }
    hide RunsAscend, InRun;
  }

  lemma {:induction false} WritesAre(keys: seq<string>)
    ensures WritesInv(WrittenAll(keys), keys)
  {
    if keys != [] {
      var front := keys[..|keys| - 1];
      WritesAre(front);
      WrittenKeeps(WrittenAll(front), front, keys[|keys| - 1]);
      hide WritesInv, Written;
      assert keys == front + [keys[|keys| - 1]];
    }
  }

  /** Later captures leave earlier runs as they are; the last run is the
      directory's. */
  lemma {:induction false} RunsOfPrefix(keys: seq<string>, n: nat)
    requires n <= |keys|
    ensures |WrittenAll(keys).runs| == |keys|
    ensures WrittenAll(keys[..n]).runs == WrittenAll(keys).runs[..n]
    ensures keys != [] ==> WrittenAll(keys).runs[|keys| - 1] == WrittenAll(keys).dir.run
    decreases |keys|
  {
    if keys != [] {
      var front := keys[..|keys| - 1];
      RunsOfPrefix(front, if n < |keys| then n else |front|);
      if n < |keys| {
        assert front[..n] == keys[..n];
      } else {
        assert keys[..n] == keys;
      }
    }
  }

  /** Over any sequence of captures of one server the run number never goes
      down, and kind, capture id and camera are distinct within a run. */
  lemma RunsSeparateRepeats(shots: seq<Shot>, i: nat, j: nat)
    requires i < j < |shots|
    ensures Runs(shots)[i] <= Runs(shots)[j]
    ensures Runs(shots)[i] == Runs(shots)[j] ==>
              || shots[i].kind != shots[j].kind
              || shots[i].capture != shots[j].capture
              || shots[i].camera != shots[j].camera
  {
    WritesAre(Keys(shots));
    KeyInjective(shots[i], shots[j]);
    assert Keys(shots)[i] == Key(shots[i]) && Keys(shots)[j] == Key(shots[j]);
  }

  /** The run goes up -- by one -- exactly at a capture whose kind, id and
      camera the current run has already had. */
  lemma RunGoesUpExactly(shots: seq<Shot>, s: Shot)
    ensures var before, after := WrittenAll(Keys(shots)), WrittenAll(Keys(shots + [s]));
            && (after.dir.run == before.dir.run || after.dir.run == before.dir.run + 1)
            && (after.dir.run > before.dir.run <==>
                exists i :: 0 <= i < |shots| && Runs(shots)[i] == before.dir.run
                            && shots[i].kind == s.kind && shots[i].capture == s.capture && shots[i].camera == s.camera)
  {
    var keys := Keys(shots);
    WritesAre(keys);
    var w := WrittenAll(keys);
    assert Keys(shots + [s])[..|shots|] == keys;
    assert WrittenAll(Keys(shots + [s])) == Written(w, Key(s));
    forall i | 0 <= i < |shots|
      ensures keys[i] == Key(s)
              <==> shots[i].kind == s.kind && shots[i].capture == s.capture && shots[i].camera == s.camera
    {
      KeyInjective(shots[i], s);
    }
    hide Key, WrittenAll;
    if InRun(w, keys, Key(s)) {
      var i :| 0 <= i < |keys| && w.runs[i] == w.dir.run && keys[i] == Key(s);
      assert Runs(shots)[i] == w.dir.run;
    }
  }

  /** Two captures of one server share a file name exactly when they fall in
      one run, show the same frame of the same camera, and the files have the
      same extension. So when a run never shows one frame of a camera twice, no
      capture overwrites another's image or sidecar. */
  lemma FilesCollideExactly(shots: seq<Shot>, i: nat, e: string, j: nat, f: string)
    requires i < j < |shots|
    requires e != [] && e[0] == '.' && f != [] && f[0] == '.'
    ensures File(shots[i], Runs(shots)[i], e) == File(shots[j], Runs(shots)[j], f)
            <==> && Runs(shots)[i] == Runs(shots)[j]
                 && shots[i].camera == shots[j].camera
                 && shots[i].frameId == shots[j].frameId
                 && e == f
  {
    FileInjective(shots[i], Runs(shots)[i], e, shots[j], Runs(shots)[j], f);
  }

  // ---- Server directories ----

  predicate IsPlain(c: char) {
    'A' <= c <= 'Z' || 'a' <= c <= 'z' || '0' <= c <= '9' || c == '.' || c == '_' || c == '-'
  }

  function Plain(c: char): char {
    if IsPlain(c) then c else '_'
  }

  function Sanitised(s: string): (r: string)
    ensures |r| == |s|
    ensures forall i | 0 <= i < |s| :: r[i] == Plain(s[i])
  {
    if s == [] then [] else [Plain(s[0])] + Sanitised(s[1..])
  }

  predicate StartsWith(s: string, p: string) {
    |p| <= |s| && s[..|p|] == p
  }

  function UpToSlash(s: string): (r: string)
    ensures |r| <= |s| && r == s[..|r|] && '/' !in r && (|r| == |s| || s[|r|] == '/')
  {
    if s == [] || s[0] == '/' then [] else [s[0]] + UpToSlash(s[1..])
  }

  function WithoutScheme(address: string): string {
    if StartsWith(address, "ws://") then address[5..]
    else if StartsWith(address, "wss://") then address[6..]
    else address
  }

  function ServerDirName(address: string): string {
    var rest := Sanitised(UpToSlash(WithoutScheme(address)));
    if rest == [] then "server" else rest
  }

  /** A directory name is never empty, has plain characters only -- no
      separator -- and is its own directory name. */
  lemma ServerDirNameIsPlain(address: string)
    ensures var d := ServerDirName(address);
            d != [] && (forall i | 0 <= i < |d| :: IsPlain(d[i])) && ServerDirName(d) == d
  {
    var d := ServerDirName(address);
    assert forall i | 0 <= i < |d| :: IsPlain(d[i]);
    assert !StartsWith(d, "ws://") && !StartsWith(d, "wss://") by {
      assert "ws://"[2] == ':' && "wss://"[3] == ':';
    }
    NoSlash(d);
    var v := Sanitised(d);
    assert forall i | 0 <= i < |d| :: v[i] == d[i];
    assert v == d;
  }

  lemma {:induction false} NoSlash(s: string)
    requires forall i | 0 <= i < |s| :: s[i] != '/'
    ensures UpToSlash(s) == s
  {
    if s != [] {
      NoSlash(s[1..]);
    }
  }

  lemma SanitisedAlike(g: string, h: string)
    ensures Sanitised(g) == Sanitised(h) <==> |g| == |h| && forall i | 0 <= i < |g| :: Plain(g[i]) == Plain(h[i])
  {
    hide Plain, Sanitised;
    var x, y := Sanitised(g), Sanitised(h);
    assert forall i | 0 <= i < |g| :: x[i] == Plain(g[i]);
    assert forall i | 0 <= i < |h| :: y[i] == Plain(h[i]);
    if x == y {
      assert forall i | 0 <= i < |g| :: x[i] == y[i];
    } else if |g| == |h| {
      assert exists i :: 0 <= i < |g| && x[i] != y[i];
    }
  }

  /** A character that becomes, or is, an underscore. */
  predicate Blurs(c: char) {
    !IsPlain(c) || c == '_'
  }

  /** The part of an address that names its directory: what stands between the
      scheme and the first slash, or `server` where nothing does. */
  function NamingPart(address: string): string {
    var rest := UpToSlash(WithoutScheme(address));
    if rest == [] then "server" else rest
  }

  ghost predicate BlurAlike(x: string, y: string) {
    |x| == |y| && forall i | 0 <= i < |x| :: x[i] == y[i] || (Blurs(x[i]) && Blurs(y[i]))
  }

  lemma DirIsNamingPart(address: string)
    ensures ServerDirName(address) == Sanitised(NamingPart(address))
  {
    var server, d := "server", Sanitised("server");
    assert forall i | 0 <= i < |server| :: IsPlain(server[i]);
    assert forall i | 0 <= i < |server| :: d[i] == server[i];
    assert d == server;
  }

  lemma BlurIsPlain(x: string, y: string)
    ensures BlurAlike(x, y) <==> |x| == |y| && forall i | 0 <= i < |x| :: Plain(x[i]) == Plain(y[i])
  {
    if |x| == |y| {
      forall i | 0 <= i < |x| ensures Plain(x[i]) == Plain(y[i]) <==> x[i] == y[i] || (Blurs(x[i]) && Blurs(y[i])) {
      }
      hide Plain, Blurs;
    }
  }

  /** Any two addresses -- with a path, a port, brackets or nothing in them --
      share a directory exactly when the parts that name it differ at most in
      characters that are written as underscores. Under one address they are one
      server; under two, as for `pi:1` and `pi_1` or `pi:1/a` and `pi:1/b`, they
      count their runs apart and write to one place. */
  lemma DirsCollideExactly(g: string, h: string)
    ensures ServerDirName(g) == ServerDirName(h) <==> BlurAlike(NamingPart(g), NamingPart(h))
  {
    DirIsNamingPart(g);
    DirIsNamingPart(h);
    hide ServerDirName, NamingPart, Sanitised, Plain, BlurAlike;
    SanitisedAlike(NamingPart(g), NamingPart(h));
    BlurIsPlain(NamingPart(g), NamingPart(h));
  }

  /** Host and port, in plain characters. */
  ghost predicate PlainHost(h: string) {
    h != [] && forall i | 0 <= i < |h| :: IsPlain(h[i]) || h[i] == ':'
  }

  predicate IsMark(c: char) {
    c == ':' || c == '_'
  }

  /** A host and port are their own naming part. */
  lemma PartOfHost(h: string)
    requires PlainHost(h)
    ensures NamingPart("ws://" + h) == h
  {
    NoSlash(h);
    assert ("ws://" + h)[..5] == "ws://" && ("ws://" + h)[5..] == h;
  }

  /** For plain hosts and ports that is: they differ at most in colons against
      underscores. */
  lemma HostDirsCollideExactly(g: string, h: string)
    requires PlainHost(g) && PlainHost(h)
    ensures ServerDirName("ws://" + g) == ServerDirName("ws://" + h)
            <==> |g| == |h| && forall i | 0 <= i < |g| :: g[i] == h[i] || (IsMark(g[i]) && IsMark(h[i]))
  {
    DirsCollideExactly("ws://" + g, "ws://" + h);
    PartOfHost(g);
    PartOfHost(h);
    forall i | 0 <= i < |g| ensures Blurs(g[i]) <==> IsMark(g[i]) {
    }
    forall i | 0 <= i < |h| ensures Blurs(h[i]) <==> IsMark(h[i]) {
    }
    hide ServerDirName, NamingPart, PlainHost, Blurs, IsMark;
  }

  /** The scheme does not count: a server reached as ws and as wss is saved
      twice into one directory. */
  lemma SchemeIsDropped(rest: string)
    ensures ServerDirName("ws://" + rest) == ServerDirName("wss://" + rest)
  {
    var a, b := "ws://" + rest, "wss://" + rest;
    assert a[..5] == "ws://" && a[5..] == rest;
    assert b[..6] == "wss://" && b[6..] == rest;
    assert b[..5][2] == 's' && "ws://"[2] == ':';
    assert WithoutScheme(a) == rest && WithoutScheme(b) == rest;
  }

  // ---- The names as documented ----

  /** src/data/CaptureSaver.hpp:9-11, 22-24 and 100. */
  lemma NamesAsDocumented()
    ensures Key(Shot(2, 3, 1, 412)) == "2:3:1"
    ensures File(Shot(2, 3, 1, 412), 0, ".yuv") == "cam1-412.yuv"
    ensures File(Shot(2, 1, 0, 10), 1, ".json") == "cam0-10-run1.json"
  {
    assert Decimal.ToString(41) == "41" && Decimal.ToString(412) == "412" && Decimal.ToString(10) == "10";
    assert "cam1-412" + ".yuv" == "cam1-412.yuv";
    assert "cam0-10-run1" + ".json" == "cam0-10-run1.json";
  }

  ghost predicate AllPlain(s: string) {
    forall i | 0 <= i < |s| :: IsPlain(s[i])
  }

  /** `host_port` for ws://host:port, whatever the scheme and whatever follows. */
  lemma HostAndPortDir(scheme: string, name: string, port: string, path: string)
    requires scheme == "ws://" || scheme == "wss://"
    requires AllPlain(name) && AllPlain(port) && (path == [] || path[0] == '/')
    ensures ServerDirName(scheme + (name + ":" + port + path)) == name + "_" + port
  {
    var host := name + ":" + port;
    var address := scheme + (host + path);
    assert address[..|scheme|] == scheme && address[|scheme|..] == host + path;
    assert scheme == "wss://" ==> address[..5][2] == 's';
    assert "ws://"[2] == ':';
    assert WithoutScheme(address) == host + path;
    HostUpToSlash(host, path);
    hide WithoutScheme, UpToSlash;
    var dir := name + "_" + port;
    assert forall i | 0 <= i < |host| && i != |name| :: dir[i] == host[i] && IsPlain(host[i]);
    assert Sanitised(host) == dir;
  }

  lemma {:induction false} HostUpToSlash(host: string, path: string)
    requires (forall i | 0 <= i < |host| :: host[i] != '/') && (path == [] || path[0] == '/')
    ensures UpToSlash(host + path) == host
  {
    if host == [] {
      assert host + path == path;
    } else {
      assert (host + path)[1..] == host[1..] + path;
      HostUpToSlash(host[1..], path);
    }
  }
}
