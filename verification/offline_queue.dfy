/**
 The offline queue: a newline-delimited text file that collects records the
 publisher could not deliver, and a retry pass that re-sends every stored
 line, writes the failures to a temporary file, then deletes the store and,
 when anything failed, renames the temporary file into its place.

 The file system is a map from path to content plus the set of paths that
 can be opened for writing; the transport is an oracle giving the outcome
 of the k-th send attempt of a pass.
 */
module OfflineQueue {
  import opened Text

  type Path = string

  const OfflineLogFile: Path := "logs/offline_log.txt"
  const TempLogFile: Path := "logs/offline_log.tmp"

  /** Size of the line buffer handed to `fgets`: one read yields at most 2047 characters. */
  const LineBufferSize := 2048
  const MaxRead := LineBufferSize - 1

  datatype FileSystem = FileSystem(files: map<Path, string>, writable: set<Path>)

  /** Outcome of one send attempt: the HTTP handle could not be created, or the request ran and succeeded or not. */
  datatype Attempt = InitFailed | Performed(ok: bool)

  type Transport = nat -> Attempt

  predicate Delivers(a: Attempt) {
    a == Performed(true)
  }

  function StoreContent(fs: FileSystem): string {
    if OfflineLogFile in fs.files then fs.files[OfflineLogFile] else ""
  }

  // ---------------------------------------------------------------------
  // File-system primitives
  // ---------------------------------------------------------------------

  /** `fopen(p, "a")` + `fprintf(f, "%s", text)`: creates the file when absent; nothing happens when `p` cannot be opened. */
  function AppendFile(fs: FileSystem, p: Path, text: string): (r: FileSystem)
    ensures r.writable == fs.writable
    ensures r.files - {p} == fs.files - {p}
    ensures p in fs.writable ==> p in r.files && r.files[p] == (if p in fs.files then fs.files[p] else "") + text
    ensures p !in fs.writable ==> r == fs
  {
    if p in fs.writable then
      fs.(files := fs.files[p := (if p in fs.files then fs.files[p] else "") + text])
    else fs
  }

  /** `remove(p)`. */
  function Remove(fs: FileSystem, p: Path): (r: FileSystem)
    ensures p !in r.files && r.writable == fs.writable
    ensures forall q :: q != p ==> (q in r.files <==> q in fs.files)
    ensures forall q :: q != p && q in fs.files ==> r.files[q] == fs.files[q]
  {
    fs.(files := fs.files - {p})
  }

  /** `rename(from, to)`: the content of `from` replaces whatever `to` held. */
  function Rename(fs: FileSystem, from: Path, to: Path): (r: FileSystem)
    requires from in fs.files && from != to
    ensures from !in r.files && to in r.files && r.files[to] == fs.files[from]
    ensures r.writable == fs.writable
    ensures forall q :: q != from && q != to ==> (q in r.files <==> q in fs.files)
    ensures forall q :: q != from && q != to && q in fs.files ==> r.files[q] == fs.files[q]
  {
    fs.(files := fs.files[to := fs.files[from]] - {from})
  }

  // ---------------------------------------------------------------------
  // offline_queue_add
  // ---------------------------------------------------------------------

  /** What `%s` prints of a string: the characters before its first NUL byte. */
  function UpToNul(s: string): (t: string)
    ensures t <= s && '\0' !in t
    ensures |t| < |s| ==> s[|t|] == '\0'
    ensures '\0' !in s ==> t == s
  {
    if |s| == 0 || s[0] == '\0' then [] else [s[0]] + UpToNul(s[1..])
  }

  /**
   Appends the record, as `%s` prints it, and a line terminator to the store; when
   the store cannot be opened nothing changes.
   */
  function Add(fs: FileSystem, line: string): (r: FileSystem)
    ensures r.writable == fs.writable
    ensures r.files - {OfflineLogFile} == fs.files - {OfflineLogFile}
    ensures OfflineLogFile in fs.writable ==>
              OfflineLogFile in r.files && StoreContent(r) == StoreContent(fs) + UpToNul(line) + "\n"
    ensures OfflineLogFile !in fs.writable ==> r == fs
  {
    AppendFile(fs, OfflineLogFile, UpToNul(line) + "\n")
  }

  // ---------------------------------------------------------------------
  // Reading the store: fgets into a 2048-byte buffer, then strcspn(line, "\n")
  // ---------------------------------------------------------------------

  /** Number of characters one `fgets` call consumes: up to and including the first newline, at most 2047. */
  function ReadLen(s: string): (k: nat)
    requires |s| > 0
    ensures 0 < k <= |s| && k <= MaxRead
    ensures '\n' !in s[..k - 1]
    ensures s[k - 1] == '\n' || k == MaxRead || k == |s|
  {
    var w := if |s| < MaxRead then |s| else MaxRead;
    match IndexOf(s[..w], '\n')
    case Some(j) => j + 1
    case None => w
  }

  /** The successive `fgets` reads of a file. */
  function Reads(s: string): (rs: seq<string>)
    ensures forall i :: 0 <= i < |rs| ==> 0 < |rs[i]| <= MaxRead
    decreases |s|
  {
    if |s| == 0 then [] else [s[..ReadLen(s)]] + Reads(s[ReadLen(s)..])
  }

  function Concat(rs: seq<string>): string {
    if |rs| == 0 then "" else rs[0] + Concat(rs[1..])
  }

  /** The reads cover the file exactly: nothing is skipped or read twice. */
  lemma {:induction false} ReadsCoverFile(s: string)
    ensures Concat(Reads(s)) == s
    decreases |s|
  {
    if |s| > 0 {
      var k := ReadLen(s);
      ReadsCoverFile(s[k..]);
      assert s == s[..k] + s[k..];
    }
  }

  /**
   `line[strcspn(line, "\n")] = 0`: the read cut at its first newline. `strcspn`
   also stops at the C string's terminating NUL, so a NUL byte inside a read ends
   the line there as well, and everything after it is neither sent nor written back.
   */
  function CutAtNewline(r: string): (l: string)
    ensures l <= r && '\n' !in l && '\0' !in l
    ensures |l| < |r| ==> r[|l|] == '\n' || r[|l|] == '\0'
  {
    if |r| == 0 || r[0] == '\n' || r[0] == '\0' then [] else [r[0]] + CutAtNewline(r[1..])
  }

  /** A terminated line free of newline and NUL bytes is cut back to itself. */
  lemma {:induction false} CutOfTerminated(l: string)
    requires '\n' !in l && '\0' !in l
    ensures CutAtNewline(l + "\n") == l
  {
    if |l| > 0 {
      assert (l + "\n")[1..] == l[1..] + "\n";
      CutOfTerminated(l[1..]);
    }
  }

  /** The lines a pass sends, in file order. */
  function StoredLines(s: string): seq<string> {
    var rs := Reads(s);
    seq(|rs|, i requires 0 <= i < |rs| => CutAtNewline(rs[i]))
  }

  /**
   A NUL byte ends a stored line: the bytes after it up to the newline are neither
   sent nor written back, so even a pass where every send fails shortens the store.
   */
  lemma NulEndsStoredLine(fs: FileSystem, t: Transport)
    requires OfflineLogFile in fs.files && fs.files[OfflineLogFile] == "ab\0cd\n"
    requires TempLogFile in fs.writable && forall k :: !Delivers(t(k))
    ensures StoredLines("ab\0cd\n") == ["ab"]
    ensures Process(fs, t).delivered == []
    ensures OfflineLogFile in Process(fs, t).fs.files && Process(fs, t).fs.files[OfflineLogFile] == "ab\n"
  {
    NulStoreReadsOneLine();
    AllRetained(["ab"], t, 0);
    assert Join(["ab"]) == "ab\n" by {
      assert ["ab"][1..] == [];
    }
  }

  lemma NulStoreReadsOneLine()
    ensures StoredLines("ab\0cd\n") == ["ab"]
  {
    var s := "ab\0cd\n";
    assert s == "ab\0cd" + ['\n'] + "";
    IndexOfAfter("ab\0cd", '\n', "");
    assert s[..6] == s;
    assert ReadLen(s) == 6;
    assert s[6..] == "";
    assert Reads(s) == [s];
    assert CutAtNewline(s) == "ab" by {
      assert s[1..] == "b\0cd\n" && s[2..] == "\0cd\n";
    }
  }

  /**
   A line that one `fgets` call reads whole, together with its terminator, and that
   `strcspn` does not cut short (no NUL byte inside).
   */
  predicate WellFormedLine(l: string) {
    '\n' !in l && '\0' !in l && |l| < MaxRead
  }

  /** The file content of a sequence of lines, each followed by one newline. */
  function Join(ls: seq<string>): string {
    if |ls| == 0 then "" else ls[0] + "\n" + Join(ls[1..])
  }

  lemma JoinAppend(ls: seq<string>, l: string)
    ensures Join(ls + [l]) == Join(ls) + l + "\n"
  {
    if |ls| > 0 {
      assert (ls + [l])[1..] == ls[1..] + [l];
      JoinAppend(ls[1..], l);
    } else {
      assert ls + [l] == [l];
    }
  }

  /** Reading back a file written as well-formed lines gives exactly those lines. */
  lemma {:induction false} StoredLinesOfJoin(ls: seq<string>)
    requires forall i :: 0 <= i < |ls| ==> WellFormedLine(ls[i])
    ensures StoredLines(Join(ls)) == ls
  {
    ReadsOfJoin(ls);
    forall i | 0 <= i < |ls|
      ensures CutAtNewline(Reads(Join(ls))[i]) == ls[i]
    {
      CutOfTerminated(ls[i]);
    }
  }

  lemma {:induction false} ReadsOfJoin(ls: seq<string>)
    requires forall i :: 0 <= i < |ls| ==> WellFormedLine(ls[i])
    ensures |Reads(Join(ls))| == |ls|
    ensures forall i :: 0 <= i < |ls| ==> Reads(Join(ls))[i] == ls[i] + "\n"
  {
    if |ls| > 0 {
      var s := Join(ls);
      var l := ls[0];
      var rest := Join(ls[1..]);
      assert s == l + "\n" + rest;
      var w := if |s| < MaxRead then |s| else MaxRead;
      assert s[..w] == l + "\n" + rest[..w - |l| - 1];
      IndexOfAfter(l, '\n', rest[..w - |l| - 1]);
      assert ReadLen(s) == |l| + 1;
      assert s[..|l| + 1] == l + "\n";
      assert s[|l| + 1..] == rest;
      ReadsOfJoin(ls[1..]);
      IndexOfAfter(l, '\n', "");
      assert l + "\n" + "" == l + "\n";
    }
  }

  // ---------------------------------------------------------------------
  // offline_queue_process
  // ---------------------------------------------------------------------

  /** The lines of `lines` (attempts numbered from `k`) whose send did not succeed, in order. */
  function Retained(lines: seq<string>, t: Transport, k: nat): seq<string> {
    if |lines| == 0 then []
    else (if Delivers(t(k)) then [] else [lines[0]]) + Retained(lines[1..], t, k + 1)
  }

  /** The lines of `lines` whose send succeeded, in order. */
  function Delivered(lines: seq<string>, t: Transport, k: nat): seq<string> {
    if |lines| == 0 then []
    else (if Delivers(t(k)) then [lines[0]] else []) + Delivered(lines[1..], t, k + 1)
  }

  /** Every line of the pass is delivered or retained, and no line is both. */
  lemma {:induction false} NoLineLost(lines: seq<string>, t: Transport, k: nat)
    ensures multiset(Retained(lines, t, k)) + multiset(Delivered(lines, t, k)) == multiset(lines)
    ensures |Retained(lines, t, k)| + |Delivered(lines, t, k)| == |lines|
  {
    if |lines| > 0 {
      NoLineLost(lines[1..], t, k + 1);
      assert lines == [lines[0]] + lines[1..];
    }
  }

  /**
   The send loop: the attempt numbered `k` sends `lines[0]`; a failed or
   uninitialised attempt writes the line and one newline to the temporary
   file's accumulated text `tmp` and clears `allSent`.
   */
  function SendLoop(lines: seq<string>, t: Transport, k: nat, tmp: string, sent: seq<string>, allSent: bool)
    : (r: (string, seq<string>, bool))
  {
    if |lines| == 0 then (tmp, sent, allSent)
    else
      match t(k)
      case Performed(true) => SendLoop(lines[1..], t, k + 1, tmp, sent + [lines[0]], allSent)
      case Performed(false) => SendLoop(lines[1..], t, k + 1, tmp + lines[0] + "\n", sent, false)
      case InitFailed => SendLoop(lines[1..], t, k + 1, tmp + lines[0] + "\n", sent, false)
  }

  /** The loop writes exactly the failed lines, delivers exactly the successful ones, and `allSent` says nothing failed. */
  lemma {:induction false} SendLoopSpec(lines: seq<string>, t: Transport, k: nat, tmp: string, sent: seq<string>, allSent: bool)
    ensures SendLoop(lines, t, k, tmp, sent, allSent).0 == tmp + Join(Retained(lines, t, k))
    ensures SendLoop(lines, t, k, tmp, sent, allSent).1 == sent + Delivered(lines, t, k)
    ensures SendLoop(lines, t, k, tmp, sent, allSent).2 == (allSent && Retained(lines, t, k) == [])
    decreases |lines|, 1
  {
    if |lines| == 0 {
      assert tmp + "" == tmp && sent + [] == sent;
    } else if Delivers(t(k)) {
      SendLoopDelivered(lines, t, k, tmp, sent, allSent);
    } else {
      SendLoopFailed(lines, t, k, tmp, sent, allSent);
    }
  }

  lemma {:induction false} SendLoopDelivered(lines: seq<string>, t: Transport, k: nat, tmp: string, sent: seq<string>, allSent: bool)
    requires |lines| > 0 && Delivers(t(k))
    ensures SendLoop(lines, t, k, tmp, sent, allSent).0 == tmp + Join(Retained(lines, t, k))
    ensures SendLoop(lines, t, k, tmp, sent, allSent).1 == sent + Delivered(lines, t, k)
    ensures SendLoop(lines, t, k, tmp, sent, allSent).2 == (allSent && Retained(lines, t, k) == [])
    decreases |lines|, 0
  {
    var l := lines[0];
    SendLoopSpec(lines[1..], t, k + 1, tmp, sent + [l], allSent);
    assert SendLoop(lines, t, k, tmp, sent, allSent) == SendLoop(lines[1..], t, k + 1, tmp, sent + [l], allSent);
    assert Retained(lines, t, k) == Retained(lines[1..], t, k + 1);
    var drest := Delivered(lines[1..], t, k + 1);
    assert Delivered(lines, t, k) == [l] + drest;
    assert sent + [l] + drest == sent + ([l] + drest);
  }

  lemma {:induction false} SendLoopFailed(lines: seq<string>, t: Transport, k: nat, tmp: string, sent: seq<string>, allSent: bool)
    requires |lines| > 0 && !Delivers(t(k))
    ensures SendLoop(lines, t, k, tmp, sent, allSent).0 == tmp + Join(Retained(lines, t, k))
    ensures SendLoop(lines, t, k, tmp, sent, allSent).1 == sent + Delivered(lines, t, k)
    ensures SendLoop(lines, t, k, tmp, sent, allSent).2 == (allSent && Retained(lines, t, k) == [])
    decreases |lines|, 0
  {
    var l := lines[0];
    var tmp' := tmp + l + "\n";
    var rest := Retained(lines[1..], t, k + 1);
    SendLoopSpec(lines[1..], t, k + 1, tmp', sent, false);
    SendLoopFailStep(lines, t, k, tmp, sent, allSent);
    assert Retained(lines, t, k) == [l] + rest;
    assert Delivered(lines, t, k) == [] + Delivered(lines[1..], t, k + 1) == Delivered(lines[1..], t, k + 1);
    JoinCons(l, rest);
    calc {
      tmp' + Join(rest);
      tmp + (l + "\n" + Join(rest));
      tmp + Join([l] + rest);
    }
  }

  /** One failed send appends the line to the temp file and clears `all_sent`. */
  lemma SendLoopFailStep(lines: seq<string>, t: Transport, k: nat, tmp: string, sent: seq<string>, allSent: bool)
    requires |lines| > 0 && !Delivers(t(k))
    ensures SendLoop(lines, t, k, tmp, sent, allSent) == SendLoop(lines[1..], t, k + 1, tmp + lines[0] + "\n", sent, false)
  {
    match t(k)
    case InitFailed =>
    case Performed(ok) => assert !ok;
  }

  lemma JoinCons(l: string, rest: seq<string>)
    ensures Join([l] + rest) == l + "\n" + Join(rest)
  {
    assert ([l] + rest)[1..] == rest;
  }

  /** State after the send loop: the temporary file holds the failures, the store is still intact. */
  datatype LoopOutcome = LoopOutcome(fs: FileSystem, delivered: seq<string>, allSent: bool)

  function RunSendLoop(fs: FileSystem, t: Transport): (r: LoopOutcome)
    requires OfflineLogFile in fs.files && TempLogFile in fs.writable
    ensures OfflineLogFile in r.fs.files && r.fs.files[OfflineLogFile] == fs.files[OfflineLogFile]
    ensures TempLogFile in r.fs.files
  {
    var lines := StoredLines(fs.files[OfflineLogFile]);
    var out := SendLoop(lines, t, 0, "", [], true);
    // fopen(TEMP_LOG_FILE, "w") truncates; the loop's writes then fill it
    LoopOutcome(fs.(files := fs.files[TempLogFile := out.0]), out.1, out.2)
  }

  /** Result of a whole pass: the file system afterwards and the lines delivered, in order. */
  datatype PassResult = PassResult(fs: FileSystem, delivered: seq<string>)

  /**
   One retry pass. Without a store it does nothing; without a writable temporary
   file it does nothing; otherwise the store afterwards holds exactly the lines
   whose send failed, in their original order, and is absent when none failed.
   */
  function Process(fs: FileSystem, t: Transport): (r: PassResult)
    ensures OfflineLogFile !in fs.files ==> r == PassResult(fs, [])
    ensures TempLogFile !in fs.writable ==> r == PassResult(fs, [])
    ensures r.fs.writable == fs.writable
    ensures forall q :: q != OfflineLogFile && q != TempLogFile ==>
              (q in r.fs.files <==> q in fs.files) && (q in fs.files ==> r.fs.files[q] == fs.files[q])
    ensures OfflineLogFile in fs.files && TempLogFile in fs.writable ==>
              var lines := StoredLines(fs.files[OfflineLogFile]);
              var kept := Retained(lines, t, 0);
              && r.delivered == Delivered(lines, t, 0)
              && (kept == [] ==> OfflineLogFile !in r.fs.files && TempLogFile in r.fs.files && r.fs.files[TempLogFile] == "")
              && (kept != [] ==> OfflineLogFile in r.fs.files && r.fs.files[OfflineLogFile] == Join(kept) && TempLogFile !in r.fs.files)
  {
    if OfflineLogFile !in fs.files then PassResult(fs, [])
    else if TempLogFile !in fs.writable then PassResult(fs, [])
    else
      var lines := StoredLines(fs.files[OfflineLogFile]);
      SendLoopSpec(lines, t, 0, "", [], true);
      assert "" + Join(Retained(lines, t, 0)) == Join(Retained(lines, t, 0));
      assert [] + Delivered(lines, t, 0) == Delivered(lines, t, 0);
      var loop := RunSendLoop(fs, t);
      var removed := Remove(loop.fs, OfflineLogFile);
      if loop.allSent then PassResult(removed, loop.delivered)
      else PassResult(Rename(removed, TempLogFile, OfflineLogFile), loop.delivered)
  }

  // ---------------------------------------------------------------------
  // Properties of add and process together
  // ---------------------------------------------------------------------

  /** A store written as well-formed lines. */
  predicate StoreHolds(fs: FileSystem, ls: seq<string>) {
    && (forall i :: 0 <= i < |ls| ==> WellFormedLine(ls[i]))
    && StoreContent(fs) == Join(ls)
    && (ls != [] ==> OfflineLogFile in fs.files)
  }

  /** Adding a well-formed line to a well-formed store makes it the last stored line. */
  lemma AddExtends(fs: FileSystem, ls: seq<string>, x: string)
    requires StoreHolds(fs, ls) && WellFormedLine(x) && OfflineLogFile in fs.writable
    ensures StoreHolds(Add(fs, x), ls + [x])
  {
    JoinAppend(ls, x);
  }

  /** A pass over a well-formed store retains the failed lines, in order, and delivers the rest. */
  lemma PassOverLines(fs: FileSystem, ls: seq<string>, t: Transport)
    requires StoreHolds(fs, ls) && OfflineLogFile in fs.files && TempLogFile in fs.writable
    ensures Process(fs, t).delivered == Delivered(ls, t, 0)
    ensures StoreHolds(Process(fs, t).fs, Retained(ls, t, 0))
  {
    StoredLinesOfJoin(ls);
    RetainedWellFormed(ls, t, 0);
  }

  lemma {:induction false} RetainedWellFormed(ls: seq<string>, t: Transport, k: nat)
    requires forall i :: 0 <= i < |ls| ==> WellFormedLine(ls[i])
    ensures forall i :: 0 <= i < |Retained(ls, t, k)| ==> WellFormedLine(Retained(ls, t, k)[i])
  {
    if |ls| > 0 {
      RetainedWellFormed(ls[1..], t, k + 1);
    }
  }

  /**
   Durability: with a transport that never delivers, a pass over a well-formed store
   rewrites it byte for byte (an empty store file is removed, which leaves the same empty content).
   */
  lemma FailingPassKeepsStore(fs: FileSystem, ls: seq<string>, t: Transport)
    requires StoreHolds(fs, ls) && OfflineLogFile in fs.files && TempLogFile in fs.writable
    requires forall k :: !Delivers(t(k))
    ensures Process(fs, t).delivered == []
    ensures StoreContent(Process(fs, t).fs) == StoreContent(fs)
    ensures ls != [] ==> OfflineLogFile in Process(fs, t).fs.files
  {
    StoredLinesOfJoin(ls);
    AllRetained(ls, t, 0);
  }

  lemma {:induction false} AllRetained(ls: seq<string>, t: Transport, k: nat)
    requires forall j :: !Delivers(t(j))
    ensures Retained(ls, t, k) == ls && Delivered(ls, t, k) == []
  {
    if |ls| > 0 {
      AllRetained(ls[1..], t, k + 1);
      assert ls == [ls[0]] + ls[1..];
    }
  }

  lemma {:induction false} NoneRetained(ls: seq<string>, t: Transport, k: nat)
    requires forall j :: Delivers(t(j))
    ensures Retained(ls, t, k) == [] && Delivered(ls, t, k) == ls
  {
    if |ls| > 0 {
      NoneRetained(ls[1..], t, k + 1);
      assert ls == [ls[0]] + ls[1..];
    }
  }

  /**
   `add(X)` then a pass whose every send fails leaves X in the store, byte-identical,
   and a second failing pass still finds it.
   */
  lemma AddThenFailingPasses(fs: FileSystem, ls: seq<string>, x: string, t1: Transport, t2: Transport)
    requires StoreHolds(fs, ls) && WellFormedLine(x)
    requires OfflineLogFile in fs.writable && TempLogFile in fs.writable
    requires forall k :: !Delivers(t1(k))
    requires forall k :: !Delivers(t2(k))
    ensures var p1 := Process(Add(fs, x), t1);
            var p2 := Process(p1.fs, t2);
            && p1.delivered == [] && p2.delivered == []
            && StoreContent(p1.fs) == Join(ls + [x])
            && StoreContent(p2.fs) == Join(ls + [x])
  {
    var fs1 := Add(fs, x);
    AddExtends(fs, ls, x);
    FailingPassKeepsStore(fs1, ls + [x], t1);
    var p1 := Process(fs1, t1);
    assert StoreHolds(p1.fs, ls + [x]);
    FailingPassKeepsStore(p1.fs, ls + [x], t2);
  }

  /** A pass that delivers everything removes the store, so the next pass is a no-op that resends nothing. */
  lemma DrainThenNoOp(fs: FileSystem, ls: seq<string>, t1: Transport, t2: Transport)
    requires StoreHolds(fs, ls) && OfflineLogFile in fs.files && TempLogFile in fs.writable
    requires forall k :: Delivers(t1(k))
    ensures Process(fs, t1).delivered == ls
    ensures OfflineLogFile !in Process(fs, t1).fs.files
    ensures Process(Process(fs, t1).fs, t2) == PassResult(Process(fs, t1).fs, [])
  {
    StoredLinesOfJoin(ls);
    NoneRetained(ls, t1, 0);
  }

  /**
   `add(X); add(Y)` on an empty queue, then a pass whose first send fails and second
   succeeds, leaves exactly X in the store and delivers Y.
   */
  lemma PartialFailureKeepsOrder(fs: FileSystem, x: string, y: string, t: Transport)
    requires OfflineLogFile !in fs.files && OfflineLogFile in fs.writable && TempLogFile in fs.writable
    requires WellFormedLine(x) && WellFormedLine(y)
    requires !Delivers(t(0)) && Delivers(t(1))
    ensures Process(Add(Add(fs, x), y), t).delivered == [y]
    ensures StoreContent(Process(Add(Add(fs, x), y), t).fs) == x + "\n"
  {
    assert StoreHolds(fs, []);
    AddExtends(fs, [], x);
    AddExtends(Add(fs, x), [x], y);
    assert [x] + [y] == [x, y];
    PassOverLines(Add(Add(fs, x), y), [x, y], t);
    assert Retained([x, y], t, 0) == [x] by {
      assert [x, y][1..] == [y];
      assert Retained([y], t, 1) == [];
    }
    assert Delivered([x, y], t, 0) == [y] by {
      assert [x, y][1..] == [y];
      assert Delivered([y], t, 1) == [y];
    }
    assert Join([x]) == x + "\n" + Join([]);
  }

  /** Three failed sends queue three entries, and one successful pass delivers all three in order. */
  lemma ThreeFailuresDrainInOnePass(fs: FileSystem, a: string, b: string, c: string, t: Transport)
    requires OfflineLogFile !in fs.files && OfflineLogFile in fs.writable && TempLogFile in fs.writable
    requires WellFormedLine(a) && WellFormedLine(b) && WellFormedLine(c)
    requires forall k :: Delivers(t(k))
    ensures var queued := Add(Add(Add(fs, a), b), c);
            && StoredLines(StoreContent(queued)) == [a, b, c]
            && Process(queued, t).delivered == [a, b, c]
            && OfflineLogFile !in Process(queued, t).fs.files
  {
    assert StoreHolds(fs, []);
    AddExtends(fs, [], a);
    AddExtends(Add(fs, a), [a], b);
    assert [a] + [b] == [a, b];
    AddExtends(Add(Add(fs, a), b), [a, b], c);
    assert [a, b] + [c] == [a, b, c];
    var queued := Add(Add(Add(fs, a), b), c);
    StoredLinesOfJoin([a, b, c]);
    DrainThenNoOp(queued, [a, b, c], t, t);
  }

  /**
   The store is replaced in two steps. If the process stops after the store is
   removed and before the rename, the retained lines exist only in the temporary
   file; the next `add` starts a fresh store and the next pass truncates the
   temporary file, so those lines are gone from every file.
   */
  lemma StopBetweenRemoveAndRenameLosesLines(fs: FileSystem, t: Transport, x: string, t2: Transport)
    requires OfflineLogFile in fs.files && TempLogFile in fs.writable && OfflineLogFile in fs.writable
    requires WellFormedLine(x)
    requires forall k :: !Delivers(t2(k))
    ensures var loop := RunSendLoop(fs, t);
            var stopped := Remove(loop.fs, OfflineLogFile);
            var after := Process(Add(stopped, x), t2);
            && OfflineLogFile !in stopped.files
            && stopped.files[TempLogFile] == Join(Retained(StoredLines(fs.files[OfflineLogFile]), t, 0))
            && StoreContent(after.fs) == x + "\n"
            && TempLogFile !in after.fs.files
  {
    var lines := StoredLines(fs.files[OfflineLogFile]);
    SendLoopSpec(lines, t, 0, "", [], true);
    assert "" + Join(Retained(lines, t, 0)) == Join(Retained(lines, t, 0));
    var stopped := Remove(RunSendLoop(fs, t).fs, OfflineLogFile);
    assert StoreHolds(stopped, []);
    AddExtends(stopped, [], x);
    assert [] + [x] == [x];
    FailingPassKeepsStore(Add(stopped, x), [x], t2);
    assert Join([x]) == x + "\n" + Join([]);
  }
}
