/**
 * The shared log tail: files are read in bounded chunks, incomplete lines are carried over, and a
 * line that outgrows the bound is discarded. Following an append-only file in chunks agrees with
 * splitting it as a whole.
 *
 * The read bound (1 MiB in the program) is a parameter `cap`.
 */
module LogTail {
  import opened Wrappers

  type Byte = b: nat | b < 256

  type Bytes = seq<Byte>

  const NEWLINE: Byte := 10

  // ----- splitting a whole file -----

  /** `split(b"\n")`: always at least one part, the last one being the incomplete line. */
  function Split(s: Bytes): (parts: seq<Bytes>)
    ensures |parts| >= 1
  {
    if s == [] then [[]]
    else
      var rest := Split(s[1..]);
      if s[0] == NEWLINE then [[]] + rest else [[s[0]] + rest[0]] + rest[1..]
  }

  /** The complete lines. */
  function Lines(s: Bytes): seq<Bytes> {
    var parts := Split(s);
    parts[..|parts| - 1]
  }

  /** What follows the last newline. */
  function Tail(s: Bytes): Bytes {
    var parts := Split(s);
    parts[|parts| - 1]
  }

  function Join(parts: seq<Bytes>): Bytes
    requires parts != []
  {
    if |parts| == 1 then parts[0] else parts[0] + [NEWLINE] + Join(parts[1..])
  }

  /** Splitting loses nothing, and no part contains a newline. */
  lemma {:induction false} SplitIsExact(s: Bytes)
    ensures Join(Split(s)) == s
    ensures forall i, k :: 0 <= i < |Split(s)| && 0 <= k < |Split(s)[i]| ==> Split(s)[i][k] != NEWLINE
  {
    if s != [] {
      SplitIsExact(s[1..]);
      var rest := Split(s[1..]);
      assert s == [s[0]] + s[1..];
      if s[0] == NEWLINE {
        assert Split(s)[1..] == rest;
      } else {
        assert Split(s)[1..] == rest[1..];
        if |rest| > 1 {
          assert Join(Split(s)) == [s[0]] + rest[0] + [NEWLINE] + Join(rest[1..]);
          assert Join(rest) == rest[0] + [NEWLINE] + Join(rest[1..]);
        }
      }
    }
  }

  /** All but the last. */
  function Front(parts: seq<Bytes>): seq<Bytes>
    requires parts != []
  {
    parts[..|parts| - 1]
  }

  lemma FrontOfLongerFirst(h: Byte, x: seq<Bytes>, y: seq<Bytes>)
    requires |x| > 1
    ensures [[h] + (Front(x) + y)[0]] + (Front(x) + y)[1..] == Front([[h] + x[0]] + x[1..]) + y
  {
    assert Front([[h] + x[0]] + x[1..]) == [[h] + x[0]] + Front(x)[1..];
    assert (Front(x) + y)[1..] == Front(x)[1..] + y;
  }

  /** Splitting can be resumed from the incomplete line. */
  lemma {:induction false} SplitResumes(a: Bytes, b: Bytes)
    ensures Split(a + b) == Lines(a) + Split(Tail(a) + b)
    decreases a
  {
    if a == [] {
      assert a + b == b && Tail(a) + b == b;
    } else {
      var h, t := a[0], a[1..];
      assert a == [h] + t && a + b == [h] + (t + b);
      SplitResumes(t, b);
      hide Split;
      var x := Split(t);
      if h == NEWLINE {
      } else if |x| == 1 {
        assert Tail(a) + b == [h] + (Tail(t) + b);
        assert Lines(a) == [] && Split(t + b) == Split(Tail(t) + b);
      } else {
        FrontOfLongerFirst(h, x, Split(Tail(t) + b));
      }
    }
  }

  lemma {:induction false} SplitWithoutNewline(line: Bytes, s: Bytes)
    requires forall k :: 0 <= k < |line| ==> line[k] != NEWLINE
    ensures Split(line + s) == [line + Split(s)[0]] + Split(s)[1..]
  {
    if line == [] {
      assert line + s == s && line + Split(s)[0] == Split(s)[0];
      assert Split(s) == [Split(s)[0]] + Split(s)[1..];
    } else {
      SplitWithoutNewline(line[1..], s);
      assert line + s == [line[0]] + (line[1..] + s);
      assert line + Split(s)[0] == [line[0]] + (line[1..] + Split(s)[0]);
    }
  }

  /** Parts are no longer than the text, and a complete line leaves room for its newline. */
  lemma {:induction false} PartsFit(s: Bytes)
    ensures forall i :: 0 <= i < |Split(s)| ==> |Split(s)[i]| <= |s|
    ensures forall i :: 0 <= i < |Lines(s)| ==> |Lines(s)[i]| < |s|
    ensures |Split(s)| > 1 ==> |Tail(s)| < |s|
  {
    if s != [] {
      PartsFit(s[1..]);
      var rest := Split(s[1..]);
      if s[0] != NEWLINE && |rest| > 1 {
        assert Lines(s[1..])[0] == rest[0];
      }
    }
  }

  // ----- one read -----

  datatype Cursor = Cursor(offset: nat, pending: Bytes, discarding: bool)

  function Feed(c: Cursor, chunk: Bytes, cap: nat): (Cursor, seq<Bytes>) {
    var parts := Split(c.pending + chunk);
    var lines, rest := parts[..|parts| - 1], parts[|parts| - 1];
    var skip := c.discarding && lines != [];
    var discarding := c.discarding && lines == [];
    var offset := c.offset + |chunk|;
    (if |rest| > cap || discarding then Cursor(offset, [], true) else Cursor(offset, rest, false),
     if skip then lines[1..] else lines)
  }

  /** A file that shrank is read again from its start. */
  function Rewound(c: Cursor, content: Bytes): (r: Cursor)
    ensures r.offset <= |content|
  {
    if |content| < c.offset then Cursor(0, [], false) else c
  }

  function Chunk(content: Bytes, offset: nat, cap: nat): (r: Bytes)
    requires offset <= |content|
    ensures |r| <= cap
  {
    content[offset..Min(offset + cap, |content|)]
  }

  function ReadFile(c: Cursor, content: Bytes, cap: nat): (Cursor, seq<Bytes>) {
    var r := Rewound(c, content);
    Feed(r, Chunk(content, r.offset, cap), cap)
  }

  // ----- the reader over all log files -----

  datatype Identity = Identity(device: nat, inode: nat)

  datatype File = Unreadable | File(identity: Identity, content: Bytes)

  datatype Entry = Entry(source: Identity, line: Bytes)

  type Cursors = map<Identity, Cursor>

  datatype Reading = Reading(cursors: Cursors, active: set<Identity>, entries: seq<Entry>)

  function Tagged(id: Identity, lines: seq<Bytes>): seq<Entry> {
    if lines == [] then [] else [Entry(id, lines[0])] + Tagged(id, lines[1..])
  }

  function CursorOf(cursors: Cursors, id: Identity): Cursor {
    if id in cursors then cursors[id] else Cursor(0, [], false)
  }

  function ReadNext(r: Reading, file: File, cap: nat): Reading {
    if file.Unreadable? || file.identity in r.active then r
    else
      var (c, lines) := ReadFile(CursorOf(r.cursors, file.identity), file.content, cap);
      Reading(r.cursors[file.identity := c], r.active + {file.identity}, r.entries + Tagged(file.identity, lines))
  }

  function ReadAll(r: Reading, files: seq<File>, cap: nat): Reading
    decreases |files|
  {
    if files == [] then r else ReadAll(ReadNext(r, files[0], cap), files[1..], cap)
  }

  function Kept(cursors: Cursors, active: set<Identity>): Cursors {
    map id | id in cursors && id in active :: cursors[id]
  }

  /** The content of a file under the last of its readable paths. */
  function LastContent(files: seq<File>, id: Identity): Option<Bytes> {
    if files == [] then None
    else
      var last := files[|files| - 1];
      if last.File? && last.identity == id then Some(last.content) else LastContent(files[..|files| - 1], id)
  }

  class IncrementalLogReader {
    var cursors: Cursors
    const cap: nat

    constructor (cap: nat)
      ensures cursors == map[] && this.cap == cap
    {
      this.cap := cap;
      cursors := map[];
    }

    /** Follow every readable file from its present end, also those already followed; the others are left alone. */
    method Prime(files: seq<File>)
      modifies this`cursors
      ensures forall id :: id in cursors <==> id in old(cursors) || LastContent(files, id).Some?
      ensures forall id :: id in cursors ==>
                cursors[id] == match LastContent(files, id)
                               case Some(content) => Cursor(|content|, [], false)
                               case None => old(cursors)[id]
    {
      var i := 0;
      while i < |files|
        invariant 0 <= i <= |files|
        invariant forall id :: id in cursors <==> id in old(cursors) || LastContent(files[..i], id).Some?
        invariant forall id :: id in cursors ==>
                    cursors[id] == match LastContent(files[..i], id)
                                   case Some(content) => Cursor(|content|, [], false)
                                   case None => old(cursors)[id]
      {
        assert files[..i + 1][..i] == files[..i];
        if files[i].File? {
          cursors := cursors[files[i].identity := Cursor(|files[i].content|, [], false)];
        }
        i := i + 1;
      }
      assert files[..i] == files;
    }

    /** `files` in the order they are read: the oldest backup first. */
    method Read(files: seq<File>) returns (entries: seq<Entry>)
      modifies this`cursors
      ensures (cursors, entries) == ReadOnce(old(cursors), files, cap)
    {
      hide Split, Tagged;
      entries := [];
      var active: set<Identity> := {};
      var i := 0;
      while i < |files|
        invariant 0 <= i <= |files|
        invariant ReadAll(Reading(cursors, active, entries), files[i..], cap)
               == ReadAll(Reading(old(cursors), {}, []), files, cap)
      {
        ghost var before := Reading(cursors, active, entries);
        assert files[i..][0] == files[i] && files[i..][1..] == files[i + 1..];
        if files[i].File? && files[i].identity !in active {
          var id, content := files[i].identity, files[i].content;
          active := active + {id};
          var cursor := if id in cursors then cursors[id] else Cursor(0, [], false);
          if |content| < cursor.offset {
            cursor := Cursor(0, [], false);
          }
          var chunk := content[cursor.offset..Min(cursor.offset + cap, |content|)];
          var lines := Split(cursor.pending + chunk);
          var pending := lines[|lines| - 1];
          lines := lines[..|lines| - 1];
          var discarding := cursor.discarding;
          if discarding && lines != [] {
            lines := lines[1..];
            discarding := false;
          }
          if |pending| > cap || discarding {
            pending := [];
            discarding := true;
          }
          cursors := cursors[id := Cursor(cursor.offset + |chunk|, pending, discarding)];
          entries := entries + Tagged(id, lines);
        }
        assert Reading(cursors, active, entries) == ReadNext(before, files[i], cap);
        i := i + 1;
      }
      cursors := Kept(cursors, active);
    }
  }

  // ----- files do not interfere -----

  /** The lines that a reading attributes to one file. */
  function From(entries: seq<Entry>, id: Identity): seq<Bytes> {
    if entries == [] then []
    else (if entries[0].source == id then [entries[0].line] else []) + From(entries[1..], id)
  }

  /** The content under which a file is read: its first readable path. */
  function ContentOf(files: seq<File>, id: Identity): Option<Bytes> {
    if files == [] then None
    else if files[0].File? && files[0].identity == id then Some(files[0].content)
    else ContentOf(files[1..], id)
  }

  lemma {:induction false} FromAppends(a: seq<Entry>, b: seq<Entry>, id: Identity)
    ensures From(a + b, id) == From(a, id) + From(b, id)
  {
    if a == [] {
      assert a + b == b;
    } else {
      assert (a + b)[1..] == a[1..] + b;
      FromAppends(a[1..], b, id);
    }
  }

  lemma {:induction false} FromTagged(owner: Identity, lines: seq<Bytes>, id: Identity)
    ensures From(Tagged(owner, lines), id) == if owner == id then lines else []
  {
    if lines != [] {
      FromTagged(owner, lines[1..], id);
      assert Tagged(owner, lines)[1..] == Tagged(owner, lines[1..]);
    }
  }

  /** The change of a reading as far as file `id` is concerned, if it is read with this content. */
  ghost predicate Effect(r: Reading, after: Reading, content: Option<Bytes>, cap: nat, id: Identity) {
    match content
    case None =>
      && (id in after.active <==> id in r.active)
      && CursorOf(after.cursors, id) == CursorOf(r.cursors, id)
      && From(after.entries, id) == From(r.entries, id)
    case Some(c) =>
      && id in after.active
      && CursorOf(after.cursors, id) == ReadFile(CursorOf(r.cursors, id), c, cap).0
      && From(after.entries, id) == From(r.entries, id) + ReadFile(CursorOf(r.cursors, id), c, cap).1
  }

  lemma ReadNextEffect(r: Reading, file: File, cap: nat, id: Identity)
    ensures Effect(r, ReadNext(r, file, cap),
                   if id !in r.active && file.File? && file.identity == id then Some(file.content) else None, cap, id)
  {
    if file.File? && file.identity !in r.active {
      var lines := ReadFile(CursorOf(r.cursors, file.identity), file.content, cap).1;
      FromAppends(r.entries, Tagged(file.identity, lines), id);
      FromTagged(file.identity, lines, id);
    }
  }

  /** Each file is read once per reading, from its own cursor, whatever the other files hold. */
  lemma {:induction false} FilesDoNotInterfere(r: Reading, files: seq<File>, cap: nat, id: Identity)
    ensures Effect(r, ReadAll(r, files, cap), if id in r.active then None else ContentOf(files, id), cap, id)
    decreases |files|
  {
    if files != [] {
      ReadNextEffect(r, files[0], cap, id);
      FilesDoNotInterfere(ReadNext(r, files[0], cap), files[1..], cap, id);
    }
  }

  // ----- following one append-only file -----

  /**
   * `emitted` leaves out of `lines` only lines longer than the cap, in order, and contains no line
   * of 2 * cap bytes or more.
   */
  ghost predicate Chosen(emitted: seq<Bytes>, lines: seq<Bytes>, cap: nat)
    decreases |lines|
  {
    if lines == [] then emitted == []
    else
      || (emitted != [] && emitted[0] == lines[0] && |lines[0]| < 2 * cap
          && Chosen(emitted[1..], lines[1..], cap))
      || (|lines[0]| > cap && Chosen(emitted, lines[1..], cap))
  }

  lemma {:induction false} ChosenAppends(e1: seq<Bytes>, l1: seq<Bytes>, e2: seq<Bytes>, l2: seq<Bytes>, cap: nat)
    requires Chosen(e1, l1, cap) && Chosen(e2, l2, cap)
    ensures Chosen(e1 + e2, l1 + l2, cap)
    decreases |l1|
  {
    if l1 == [] {
      assert e1 + e2 == e2 && l1 + l2 == l2;
    } else {
      assert (l1 + l2)[1..] == l1[1..] + l2;
      if e1 != [] && e1[0] == l1[0] && |l1[0]| < 2 * cap && Chosen(e1[1..], l1[1..], cap) {
        ChosenAppends(e1[1..], l1[1..], e2, l2, cap);
        assert (e1 + e2)[1..] == e1[1..] + e2;
      } else {
        ChosenAppends(e1, l1[1..], e2, l2, cap);
      }
    }
  }

  lemma {:induction false} AllChosen(lines: seq<Bytes>, cap: nat)
    requires forall i :: 0 <= i < |lines| ==> |lines[i]| < 2 * cap
    ensures Chosen(lines, lines, cap)
  {
    if lines != [] {
      AllChosen(lines[1..], cap);
    }
  }

  /** The cursor carries the incomplete line, or has given it up because it is too long. */
  ghost predicate Tracks(c: Cursor, consumed: Bytes, cap: nat) {
    if c.discarding then c.pending == [] && |Tail(consumed)| > cap
    else c.pending == Tail(consumed) && |c.pending| <= cap
  }

  /** One more chunk: exactly the newly completed lines, except one that was given up. */
  lemma FeedTracks(c: Cursor, consumed: Bytes, chunk: Bytes, cap: nat)
    requires Tracks(c, consumed, cap) && |chunk| <= cap
    ensures var (c', lines) := Feed(c, chunk, cap);
            && Tracks(c', consumed + chunk, cap)
            && exists added :: Lines(consumed + chunk) == Lines(consumed) + added && Chosen(lines, added, cap)
  {
    SplitResumes(consumed, chunk);
    SplitIsExact(consumed);
    var line := Tail(consumed);
    var parts := Split(line + chunk);
    var added := parts[..|parts| - 1];
    assert Lines(consumed + chunk) == Lines(consumed) + added;
    assert Tail(consumed + chunk) == Tail(line + chunk);
    var (c', lines) := Feed(c, chunk, cap);
    if c.discarding {
      GivenUp(c, line, chunk, cap);
    } else {
      PartsFit(line + chunk);
      assert added == Lines(line + chunk);
      AllChosen(added, cap);
    }
    assert Lines(consumed + chunk) == Lines(consumed) + added && Chosen(lines, added, cap);
  }

  /** While a line is given up, its remainder is skipped and the lines after it are kept. */
  lemma GivenUp(c: Cursor, line: Bytes, chunk: Bytes, cap: nat)
    requires c.discarding && c.pending == [] && |line| > cap && |chunk| <= cap
    requires forall k :: 0 <= k < |line| ==> line[k] != NEWLINE
    ensures var (c', lines) := Feed(c, chunk, cap);
            && Chosen(lines, Lines(line + chunk), cap)
            && (if c'.discarding then c'.pending == [] && |Tail(line + chunk)| > cap
                else c'.pending == Tail(line + chunk) && |c'.pending| <= cap)
  {
    SplitWithoutNewline(line, chunk);
    PartsFit(chunk);
    assert c.pending + chunk == chunk;
    var lines := Lines(chunk);
    if lines != [] {
      assert Lines(line + chunk) == [line + Split(chunk)[0]] + lines[1..];
      AllChosen(lines[1..], cap);
      assert Lines(line + chunk)[1..] == lines[1..];
    } else {
      assert Lines(line + chunk) == [];
    }
  }

  predicate Growing(content: Bytes, snapshots: seq<Bytes>)
    decreases |snapshots|
  {
    snapshots != [] ==> content <= snapshots[0] && Growing(snapshots[0], snapshots[1..])
  }

  /** Successive reads of a file, each finding the content it then has. */
  function Follow(c: Cursor, snapshots: seq<Bytes>, cap: nat): (Cursor, seq<Bytes>)
    decreases |snapshots|
  {
    if snapshots == [] then (c, [])
    else
      var (c1, lines) := ReadFile(c, snapshots[0], cap);
      var (c2, more) := Follow(c1, snapshots[1..], cap);
      (c2, lines + more)
  }

  function Latest(content: Bytes, snapshots: seq<Bytes>): Bytes {
    if snapshots == [] then content else snapshots[|snapshots| - 1]
  }

  lemma ReadTracks(c: Cursor, now: Bytes, start: nat, emitted: seq<Bytes>, cap: nat)
    requires start <= c.offset <= |now| && Tracks(c, now[start..c.offset], cap)
    requires Chosen(emitted, Lines(now[start..c.offset]), cap)
    ensures var (c1, lines) := ReadFile(c, now, cap);
            && c.offset <= c1.offset <= |now| && Tracks(c1, now[start..c1.offset], cap)
            && Chosen(emitted + lines, Lines(now[start..c1.offset]), cap)
  {
    var consumed, chunk := now[start..c.offset], Chunk(now, c.offset, cap);
    var (c1, lines) := ReadFile(c, now, cap);
    assert now[start..c1.offset] == consumed + chunk;
    FeedTracks(c, consumed, chunk, cap);
    var added :| Lines(consumed + chunk) == Lines(consumed) + added && Chosen(lines, added, cap);
    ChosenAppends(emitted, Lines(consumed), lines, added, cap);
  }

  lemma {:induction false} FollowTracks(c: Cursor, content: Bytes, start: nat, emitted: seq<Bytes>,
                                        snapshots: seq<Bytes>, cap: nat)
    requires Growing(content, snapshots) && start <= c.offset <= |content|
    requires Tracks(c, content[start..c.offset], cap)
    requires Chosen(emitted, Lines(content[start..c.offset]), cap)
    ensures var (c', more) := Follow(c, snapshots, cap);
            var latest := Latest(content, snapshots);
            && start <= c'.offset <= |latest|
            && Tracks(c', latest[start..c'.offset], cap)
            && Chosen(emitted + more, Lines(latest[start..c'.offset]), cap)
    decreases |snapshots|
  {
    if snapshots == [] {
      assert emitted + [] == emitted;
    } else {
      var now := snapshots[0];
      assert now[start..c.offset] == content[start..c.offset];
      ReadTracks(c, now, start, emitted, cap);
      var (c1, lines) := ReadFile(c, now, cap);
      FollowTracks(c1, now, start, emitted + lines, snapshots[1..], cap);
      var (c2, more) := Follow(c1, snapshots[1..], cap);
      assert emitted + (lines + more) == (emitted + lines) + more;
    }
  }

  lemma ReadAdvances(c: Cursor, now: Bytes, cap: nat)
    requires c.offset <= |now|
    ensures ReadFile(c, now, cap).0.offset == Min(c.offset + cap, |now|)
  {
    hide Split;
  }

  lemma {:induction false} FollowAdvances(c: Cursor, content: Bytes, snapshots: seq<Bytes>, cap: nat)
    requires Growing(content, snapshots) && c.offset <= |content|
    ensures Min(c.offset + |snapshots| * cap, |content|) <= Follow(c, snapshots, cap).0.offset
    decreases |snapshots|
  {
    hide ReadFile;
    if snapshots != [] {
      var c1 := ReadFile(c, snapshots[0], cap).0;
      ReadAdvances(c, snapshots[0], cap);
      FollowAdvances(c1, snapshots[0], snapshots[1..], cap);
      assert |snapshots| * cap == cap + |snapshots[1..]| * cap;
    }
  }

  /**
   * Chunk independence: following a growing file from any offset, however the reads fall, emits in
   * order the complete lines of what was read, without fragments; every line of at most `cap` bytes
   * is among them, none of 2 * cap bytes or more is, and at most `cap` bytes stay pending. Every read
   * gets on: n of them have read n * cap bytes, or all that was there before the first.
   */
  lemma FollowingAgreesWithSplitting(content: Bytes, start: nat, snapshots: seq<Bytes>, cap: nat)
    requires start <= |content| && Growing(content, snapshots)
    ensures var (c, emitted) := Follow(Cursor(start, [], false), snapshots, cap);
            var latest := Latest(content, snapshots);
            && start <= c.offset <= |latest| && Min(start + |snapshots| * cap, |content|) <= c.offset
            && Chosen(emitted, Lines(latest[start..c.offset]), cap)
            && |c.pending| <= cap
  {
    assert content[start..start] == [];
    FollowAdvances(Cursor(start, [], false), content, snapshots, cap);
    FollowTracks(Cursor(start, [], false), content, start, [], snapshots, cap);
    var (c, emitted) := Follow(Cursor(start, [], false), snapshots, cap);
    assert [] + emitted == emitted;
  }

  /** If no line exceeds the cap, the reader emits exactly the lines of the text it has read. */
  lemma {:induction false} ShortLinesAreAllEmitted(emitted: seq<Bytes>, lines: seq<Bytes>, cap: nat)
    requires Chosen(emitted, lines, cap)
    requires forall i :: 0 <= i < |lines| ==> |lines[i]| <= cap
    ensures emitted == lines
    decreases |lines|
  {
    if lines != [] {
      ShortLinesAreAllEmitted(emitted[1..], lines[1..], cap);
    }
  }

  /** What `Chosen` promises about single lines: each comes from the file, the short ones all do. */
  lemma {:induction false} ChosenLines(emitted: seq<Bytes>, lines: seq<Bytes>, cap: nat, line: Bytes)
    requires Chosen(emitted, lines, cap)
    ensures line in emitted ==> line in lines && |line| < 2 * cap
    ensures line in lines && |line| <= cap ==> line in emitted
    decreases |lines|
  {
    if lines != [] {
      if emitted != [] && emitted[0] == lines[0] && |lines[0]| < 2 * cap
         && Chosen(emitted[1..], lines[1..], cap) {
        ChosenLines(emitted[1..], lines[1..], cap, line);
        assert emitted == [emitted[0]] + emitted[1..];
      } else {
        ChosenLines(emitted, lines[1..], cap, line);
      }
      assert lines == [lines[0]] + lines[1..];
    }
  }

  // ----- whole readings, one after the other -----

  /** One reading of all files: what is followed afterwards, and what was emitted. */
  function ReadOnce(cursors: Cursors, files: seq<File>, cap: nat): (Cursors, seq<Entry>) {
    var r := ReadAll(Reading(cursors, {}, []), files, cap);
    (Kept(r.cursors, r.active), r.entries)
  }

  function ReadOften(cursors: Cursors, readings: seq<seq<File>>, cap: nat): (Cursors, seq<Entry>)
    decreases |readings|
  {
    if readings == [] then (cursors, [])
    else
      var (c1, entries) := ReadOnce(cursors, readings[0], cap);
      var (c2, more) := ReadOften(c1, readings[1..], cap);
      (c2, entries + more)
  }

  /** Every reading finds the file, with these contents. */
  ghost predicate Finds(readings: seq<seq<File>>, id: Identity, snapshots: seq<Bytes>) {
    |readings| == |snapshots| && forall k :: 0 <= k < |readings| ==> ContentOf(readings[k], id) == Some(snapshots[k])
  }

  /** After a reading exactly the files that it found are followed. */
  lemma FoundFilesAreFollowed(cursors: Cursors, files: seq<File>, cap: nat, id: Identity)
    ensures id in ReadOnce(cursors, files, cap).0 <==> ContentOf(files, id).Some?
  {
    FilesDoNotInterfere(Reading(cursors, {}, []), files, cap, id);
    ActiveIsFollowed(Reading(cursors, {}, []), files, cap);
  }

  lemma {:induction false} ActiveIsFollowed(r: Reading, files: seq<File>, cap: nat)
    requires r.active <= r.cursors.Keys
    ensures ReadAll(r, files, cap).active <= ReadAll(r, files, cap).cursors.Keys
    decreases |files|
  {
    if files != [] {
      ActiveIsFollowed(ReadNext(r, files[0], cap), files[1..], cap);
    }
  }

  lemma {:induction false} ReadingsFollow(cursors: Cursors, readings: seq<seq<File>>, id: Identity, snapshots: seq<Bytes>, cap: nat)
    requires Finds(readings, id, snapshots)
    ensures From(ReadOften(cursors, readings, cap).1, id) == Follow(CursorOf(cursors, id), snapshots, cap).1
    decreases |readings|
  {
    hide ReadFile, From;
    if readings == [] {
      NothingFrom(id);
    } else {
      var (c1, entries) := ReadOnce(cursors, readings[0], cap);
      var more := ReadOften(c1, readings[1..], cap).1;
      FilesDoNotInterfere(Reading(cursors, {}, []), readings[0], cap, id);
      FoundFilesAreFollowed(cursors, readings[0], cap, id);
      NothingFrom(id);
      assert Finds(readings[1..], id, snapshots[1..]);
      ReadingsFollow(c1, readings[1..], id, snapshots[1..], cap);
      FromAppends(entries, more, id);
      assert [] + From(entries, id) == From(entries, id);
    }
  }

  lemma NothingFrom(id: Identity)
    ensures From([], id) == []
  {
  }

  /** The reader starts a file from its beginning if it does not follow it yet, or finds it shorter than it had read. */
  predicate StartsOver(cursors: Cursors, id: Identity, content: Bytes) {
    id !in cursors || |content| < cursors[id].offset
  }

  lemma RestartIsAFreshStart(c: Cursor, snapshots: seq<Bytes>, cap: nat)
    requires snapshots != [] && |snapshots[0]| < c.offset
    ensures Follow(c, snapshots, cap).1 == Follow(Cursor(0, [], false), snapshots, cap).1
  {
    hide Feed;
  }

  /**
   * Whatever other files hold and however they come and go: from a reading that finds a file new, back
   * again or cut short, what successive readings attribute to it, as long as it only grows, are its lines
   * from the beginning: of the first n * cap bytes after n readings, if it has as many.
   */
  lemma ReadingsAgreeWithSplitting(cursors: Cursors, readings: seq<seq<File>>, id: Identity, snapshots: seq<Bytes>, cap: nat)
    requires Finds(readings, id, snapshots) && snapshots != [] && Growing(snapshots[0], snapshots)
    requires StartsOver(cursors, id, snapshots[0])
    ensures exists n: nat :: Min(|snapshots| * cap, |snapshots[0]|) <= n <= |Latest([], snapshots)|
                             && Chosen(From(ReadOften(cursors, readings, cap).1, id), Lines(Latest([], snapshots)[..n]), cap)
  {
    ReadingsFollow(cursors, readings, id, snapshots, cap);
    if id in cursors {
      RestartIsAFreshStart(cursors[id], snapshots, cap);
    }
    FollowingAgreesWithSplitting(snapshots[0], 0, snapshots, cap);
    var n := Follow(Cursor(0, [], false), snapshots, cap).0.offset;
    assert Latest([], snapshots) == Latest(snapshots[0], snapshots);
    assert Latest([], snapshots)[0..n] == Latest([], snapshots)[..n];
  }
}
