/** The rotating log: what replay returns, what truncation may remove, how large files get. */
module WriteAheadLog {
  import opened Common
  import opened Operations

  datatype Payload = DeltaPayload(delta: Delta) | CheckpointPayload(version: nat)

  /** `bytes` is the length of the serialised line. */
  datatype LogEntry = LogEntry(sequence: nat, payload: Payload, bytes: nat)

  datatype FileName = FileName(time: int, sequence: nat)

  /** `order` lists the files as they were created; the program itself only sees an unordered directory. */
  datatype Log = Log(files: map<FileName, seq<LogEntry>>, order: seq<FileName>, current: FileName,
                     open: bool, sequence: nat, size: nat)

  function Started(time: int): Log {
    var name := FileName(time, 0);
    Log(map[name := []], [name], name, true, 0, 0)
  }

  function FileOf(l: Log, name: FileName): seq<LogEntry> {
    if name in l.files then l.files[name] else []
  }

  /** Opening for appending creates the file when it is missing. */
  function Rotated(l: Log, time: int): Log {
    var name := FileName(time, l.sequence);
    l.(files := l.files[name := FileOf(l, name)], order := if name in l.files then l.order else l.order + [name],
       current := name, open := true, size := 0)
  }

  function Written(l: Log, entry: LogEntry): Log {
    if l.open
    then l.(files := l.files[l.current := FileOf(l, l.current) + [entry]], size := l.size + entry.bytes)
    else l
  }

  /** The log with room for the next entry: in the current file, or in a new one when the limit would be passed. */
  function Roomed(l: Log, bytes: nat, time: int, maxFileSize: nat): Log {
    var next := l.(sequence := l.sequence + 1);
    if l.size + bytes > maxFileSize then Rotated(next, time) else next
  }

  function Appended(l: Log, payload: Payload, bytes: nat, time: int, maxFileSize: nat): Log {
    Written(Roomed(l, bytes, time, maxFileSize), LogEntry(l.sequence + 1, payload, bytes))
  }

  function After(entries: seq<LogEntry>, sequence: nat): seq<LogEntry> {
    if entries == [] then []
    else (if entries[0].sequence > sequence then [entries[0]] else []) + After(entries[1..], sequence)
  }

  function Concat(files: map<FileName, seq<LogEntry>>, names: seq<FileName>): seq<LogEntry> {
    if names == [] then []
    else (if names[0] in files then files[names[0]] else []) + Concat(files, names[1..])
  }

  predicate SequenceOrder(a: LogEntry, b: LogEntry) { a.sequence <= b.sequence }

  /** What replay computes when the directory lists its files in the order `listing`. */
  function Replayed(l: Log, listing: seq<FileName>, fromSequence: nat): seq<LogEntry> {
    Sort(SequenceOrder, After(Concat(l.files, listing), fromSequence))
  }

  predicate Droppable(l: Log, name: FileName, before: nat) {
    name != l.current && name in l.files && l.files[name] != [] && Last(l.files[name]).sequence < before
  }

  function Kept(l: Log, names: seq<FileName>, before: nat): seq<FileName> {
    if names == [] then []
    else (if Droppable(l, names[0], before) then [] else [names[0]]) + Kept(l, names[1..], before)
  }

  function Truncated(l: Log, before: nat): Log {
    l.(files := map name | name in l.files && !Droppable(l, name, before) :: l.files[name],
       order := Kept(l, l.order, before))
  }

  // ---------- the invariant ----------

  function Contents(l: Log): seq<LogEntry> {
    Concat(l.files, l.order)
  }

  /** Consecutive sequence numbers, the last of them `last`. */
  predicate Consecutive(entries: seq<LogEntry>, last: nat) {
    |entries| <= last && forall i :: 0 <= i < |entries| ==> entries[i].sequence == last - |entries| + 1 + i
  }

  predicate Distinct<T(==)>(s: seq<T>) {
    forall i, j :: 0 <= i < j < |s| ==> s[i] != s[j]
  }

  ghost predicate Lists(names: seq<FileName>, files: map<FileName, seq<LogEntry>>) {
    Distinct(names) && forall name :: name in files <==> name in names
  }

  /** The directory, its files' creation order, and a bound on the numbers in their names. */
  ghost predicate Framed(files: map<FileName, seq<LogEntry>>, order: seq<FileName>, current: FileName, bound: nat) {
    && order != [] && Last(order) == current && Lists(order, files)
    && forall name :: name in files ==> name.sequence <= bound
  }

  ghost predicate Good(l: Log) {
    l.open && Framed(l.files, l.order, l.current, l.sequence) && Consecutive(Contents(l), l.sequence)
  }

  lemma {:induction false} ConcatAppend(files: map<FileName, seq<LogEntry>>, a: seq<FileName>, b: seq<FileName>)
    ensures Concat(files, a + b) == Concat(files, a) + Concat(files, b)
  {
    if a == [] {
      assert a + b == b;
    } else {
      assert (a + b)[1..] == a[1..] + b;
      ConcatAppend(files, a[1..], b);
    }
  }

  lemma {:induction false} ConcatLast(files: map<FileName, seq<LogEntry>>, names: seq<FileName>, name: FileName)
    ensures Concat(files, names + [name]) == Concat(files, names) + (if name in files then files[name] else [])
  {
    ConcatAppend(files, names, [name]);
    assert [name][1..] == [];
    assert Concat(files, [name]) == (if name in files then files[name] else []) + [];
  }

  lemma {:induction false} ConcatSame(files: map<FileName, seq<LogEntry>>, files': map<FileName, seq<LogEntry>>,
                                      names: seq<FileName>)
    requires forall name :: name in names ==>
               (name in files <==> name in files') && (name in files ==> files[name] == files'[name])
    ensures Concat(files, names) == Concat(files', names)
  {
    if names != [] {
      ConcatSame(files, files', names[1..]);
    }
  }

  /** Good, but for the entry that the sequence number already counts. */
  ghost predicate Waiting(l: Log) {
    l.open && Framed(l.files, l.order, l.current, l.sequence) && l.sequence > 0
      && Consecutive(Contents(l), l.sequence - 1)
  }

  lemma {:induction false} NextWaiting(l: Log)
    requires Good(l)
    ensures Waiting(l.(sequence := l.sequence + 1)) && Contents(l.(sequence := l.sequence + 1)) == Contents(l)
  {
    forall name | name in l.files ensures name.sequence <= l.sequence + 1 {
    }
  }

  lemma {:induction false} RotateKeepsFrame(l: Log, time: int)
    requires Framed(l.files, l.order, l.current, l.sequence)
    ensures var r := Rotated(l.(sequence := l.sequence + 1), time);
            && Framed(r.files, r.order, r.current, r.sequence)
            && r.order == l.order + [r.current] && r.current !in l.files && r.files == l.files[r.current := []]
  {
    var name := FileName(time, l.sequence + 1);
    assert name !in l.files && name !in l.order;
  }

  lemma {:induction false} RotateKeepsGood(l: Log, time: int)
    requires Good(l)
    ensures var r := Rotated(l.(sequence := l.sequence + 1), time); Waiting(r) && Contents(r) == Contents(l)
  {
    RotateKeepsFrame(l, time);
    var r := Rotated(l.(sequence := l.sequence + 1), time);
    ConcatLast(r.files, l.order, r.current);
    ConcatSame(l.files, r.files, l.order);
    assert Contents(r) == Contents(l) + [];
  }

  lemma {:induction false} RoomedKeepsGood(l: Log, bytes: nat, time: int, maxFileSize: nat)
    requires Good(l)
    ensures Waiting(Roomed(l, bytes, time, maxFileSize))
    ensures Contents(Roomed(l, bytes, time, maxFileSize)) == Contents(l)
  {
    var next := l.(sequence := l.sequence + 1);
    var room := Roomed(l, bytes, time, maxFileSize);
    assert Waiting(room) && Contents(room) == Contents(l) by {
      if l.size + bytes > maxFileSize {
        RotateKeepsGood(l, time);
        assert room == Rotated(next, time);
      } else {
        NextWaiting(l);
        assert room == next;
      }
    }
  }

  lemma {:induction false} WriteContents(l: Log, entry: LogEntry)
    requires Waiting(l)
    ensures Contents(Written(l, entry)) == Contents(l) + [entry]
  {
    var w := Written(l, entry);
    var before := Init(l.order);
    assert l.order == before + [l.current];
    assert l.current !in before;
    ConcatLast(l.files, before, l.current);
    ConcatLast(w.files, before, l.current);
    ConcatSame(l.files, w.files, before);
  }

  lemma {:induction false} WriteKeepsGood(l: Log, entry: LogEntry)
    requires Waiting(l) && entry.sequence == l.sequence
    ensures Good(Written(l, entry)) && Contents(Written(l, entry)) == Contents(l) + [entry]
  {
    WriteContents(l, entry);
    assert l.current in l.order;
    assert Lists(l.order, Written(l, entry).files);
  }

  /** Appending, with or without a rotation, adds exactly one entry at the end of the log's contents. */
  lemma {:induction false} AppendKeepsGood(l: Log, payload: Payload, bytes: nat, time: int, maxFileSize: nat)
    requires Good(l)
    ensures var l' := Appended(l, payload, bytes, time, maxFileSize);
            && Good(l') && l'.sequence == l.sequence + 1
            && Contents(l') == Contents(l) + [LogEntry(l.sequence + 1, payload, bytes)]
  {
    RoomedKeepsGood(l, bytes, time, maxFileSize);
    assert Roomed(l, bytes, time, maxFileSize).sequence == l.sequence + 1;
    WriteKeepsGood(Roomed(l, bytes, time, maxFileSize), LogEntry(l.sequence + 1, payload, bytes));
  }

  // ---------- replay ----------

  lemma {:induction false} AfterCounts(entries: seq<LogEntry>, sequence: nat, e: LogEntry)
    ensures multiset(After(entries, sequence))[e] == if e.sequence > sequence then multiset(entries)[e] else 0
  {
    if entries != [] {
      AfterCounts(entries[1..], sequence, e);
      assert entries == [entries[0]] + entries[1..];
    }
  }

  lemma {:induction false} AfterConcat(a: seq<LogEntry>, b: seq<LogEntry>, sequence: nat)
    ensures After(a + b, sequence) == After(a, sequence) + After(b, sequence)
  {
    if a == [] {
      assert a + b == b;
    } else {
      assert (a + b)[1..] == a[1..] + b;
      AfterConcat(a[1..], b, sequence);
    }
  }

  /** On consecutive entries, "after k" is a suffix. */
  lemma {:induction false} AfterIsSuffix(entries: seq<LogEntry>, last: nat, k: nat)
    requires Consecutive(entries, last)
    ensures After(entries, k) ==
            if k >= last then [] else if k <= last - |entries| then entries else entries[k - (last - |entries|)..]
  {
    if entries != [] {
      AfterIsSuffix(entries[1..], last, k);
    }
  }

  lemma {:induction false} ConcatRemove(files: map<FileName, seq<LogEntry>>, b: seq<FileName>, j: nat)
    requires j < |b|
    ensures multiset(Concat(files, b)) == multiset(Concat(files, [b[j]])) + multiset(Concat(files, b[..j] + b[j + 1..]))
  {
    var x, y := Concat(files, b[..j]), Concat(files, b[j + 1..]);
    var h := Concat(files, [b[j]]);
    assert b == b[..j] + ([b[j]] + b[j + 1..]);
    ConcatAppend(files, b[..j], [b[j]] + b[j + 1..]);
    ConcatAppend(files, [b[j]], b[j + 1..]);
    ConcatAppend(files, b[..j], b[j + 1..]);
    assert Concat(files, b) == x + (h + y);
  }

  lemma {:induction false} FirstMember(b: seq<FileName>)
    requires b != []
    ensures b[0] in b
  {
  }

  lemma {:induction false} ConcatPermutes(files: map<FileName, seq<LogEntry>>, a: seq<FileName>, b: seq<FileName>)
    requires Distinct(a) && Distinct(b) && forall name :: name in a <==> name in b
    ensures multiset(Concat(files, a)) == multiset(Concat(files, b))
  {
    if a == [] {
      if b != [] {
        FirstMember(b);
        assert false;
      }
    } else {
      assert a[0] in b;
      var j :| 0 <= j < |b| && b[j] == a[0];
      RemoveOne(a, b, j);
      ConcatPermutes(files, a[1..], b[..j] + b[j + 1..]);
      ConcatRemove(files, b, j);
      ConcatRemove(files, a, 0);
      assert a[..0] + a[1..] == a[1..];
    }
  }

  lemma {:induction false} RemoveOne(a: seq<FileName>, b: seq<FileName>, j: nat)
    requires Distinct(a) && Distinct(b) && (forall name :: name in a <==> name in b)
    requires a != [] && j < |b| && b[j] == a[0]
    ensures Distinct(a[1..]) && Distinct(b[..j] + b[j + 1..])
    ensures forall name :: name in a[1..] <==> name in b[..j] + b[j + 1..]
  {
    var rest := b[..j] + b[j + 1..];
    assert a == [a[0]] + a[1..] && b == b[..j] + [b[j]] + b[j + 1..];
    assert a[0] !in a[1..] && a[0] !in rest;
    forall name ensures name in a[1..] <==> name in rest {
      assert name in a <==> name == a[0] || name in a[1..];
      assert name in b <==> name == a[0] || name in rest;
    }
  }

  lemma {:induction false} ListingReadsAll(l: Log, listing: seq<FileName>, k: nat)
    requires Lists(l.order, l.files) && Lists(listing, l.files)
    ensures multiset(After(Concat(l.files, listing), k)) == multiset(After(Contents(l), k))
  {
    ConcatPermutes(l.files, listing, l.order);
    forall e ensures multiset(After(Concat(l.files, listing), k))[e] == multiset(After(Contents(l), k))[e] {
      AfterCounts(Concat(l.files, listing), k, e);
      AfterCounts(Contents(l), k, e);
    }
  }

  lemma {:induction false} AfterConsecutive(entries: seq<LogEntry>, last: nat, k: nat)
    requires Consecutive(entries, last)
    ensures Consecutive(After(entries, k), last)
  {
    AfterIsSuffix(entries, last, k);
  }

  lemma {:induction false} ConsecutiveOrder(entries: seq<LogEntry>, last: nat)
    requires Consecutive(entries, last)
    ensures Sorted(SequenceOrder, entries) && Antisymmetric(SequenceOrder, multiset(entries))
  {
    forall x, y | x in multiset(entries) && y in multiset(entries) && SequenceOrder(x, y)
      && SequenceOrder(y, x) ensures x == y {
      var i :| 0 <= i < |entries| && entries[i] == x;
      var j :| 0 <= j < |entries| && entries[j] == y;
    }
  }

  /** Replay returns the entries after `k` in sequence order, however the directory lists its files. */
  lemma {:induction false} ReplayIgnoresListing(l: Log, listing: seq<FileName>, k: nat)
    requires Good(l) && Lists(listing, l.files)
    ensures Replayed(l, listing, k) == After(Contents(l), k)
  {
    var read, want := After(Concat(l.files, listing), k), After(Contents(l), k);
    ListingReadsAll(l, listing, k);
    AfterConsecutive(Contents(l), l.sequence, k);
    ConsecutiveOrder(want, l.sequence);
    SortToUnique(SequenceOrder, read, want);
  }

  // ---------- truncation ----------

  lemma {:induction false} NothingAfter(entries: seq<LogEntry>, k: nat)
    requires forall i :: 0 <= i < |entries| ==> entries[i].sequence <= k
    ensures After(entries, k) == []
  {
    if entries != [] {
      NothingAfter(entries[1..], k);
    }
  }

  /** Files whose entries all reach the bound are all kept. */
  lemma {:induction false} AllKept(l: Log, names: seq<FileName>, before: nat)
    requires forall i :: 0 <= i < |Concat(l.files, names)| ==> Concat(l.files, names)[i].sequence >= before
    requires forall name :: name in names ==> name in l.files
    ensures Concat(Truncated(l, before).files, Kept(l, names, before)) == Concat(l.files, names)
  {
    if names != [] {
      var head, rest := l.files[names[0]], Concat(l.files, names[1..]);
      var all := Concat(l.files, names);
      assert all == head + rest;
      assert forall i :: 0 <= i < |rest| ==> rest[i] == all[|head| + i];
      assert head != [] ==> Last(head) == all[|head| - 1];
      AllKept(l, names[1..], before);
      var kept := Kept(l, names[1..], before);
      assert ([names[0]] + kept)[1..] == kept;
    }
  }

  /** `kept` is what remains of `all` when old entries are dropped from its front. */
  predicate Trims(all: seq<LogEntry>, kept: seq<LogEntry>, k: nat) {
    After(kept, k) == After(all, k) && |kept| <= |all| && kept == all[|all| - |kept|..]
  }

  lemma {:induction false} DropHead(head: seq<LogEntry>, rest: seq<LogEntry>, kept: seq<LogEntry>, k: nat)
    requires Trims(rest, kept, k) && forall i :: 0 <= i < |head| ==> head[i].sequence <= k
    ensures Trims(head + rest, kept, k)
  {
    AfterConcat(head, rest, k);
    NothingAfter(head, k);
    assert [] + After(rest, k) == After(rest, k);
    assert (head + rest)[|head| + |rest| - |kept|..] == rest[|rest| - |kept|..];
  }

  lemma {:induction false} KeepHead(head: seq<LogEntry>, rest: seq<LogEntry>, kept: seq<LogEntry>, k: nat)
    requires Trims(rest, kept, k) && (head == [] || kept == rest)
    ensures Trims(head + rest, head + kept, k)
  {
    if head == [] {
      assert [] + rest == rest && [] + kept == kept;
    }
  }

  predicate CurrentLast(l: Log, names: seq<FileName>) {
    forall i :: 0 <= i < |names| && names[i] == l.current ==> i == |names| - 1
  }

  lemma {:induction false} CurrentLastTail(l: Log, names: seq<FileName>)
    requires names != [] && CurrentLast(l, names)
    ensures CurrentLast(l, names[1..]) && (names[0] == l.current ==> names[1..] == [])
  {
    forall i | 0 <= i < |names[1..]| && names[1..][i] == l.current ensures i == |names[1..]| - 1 {
      assert names[i + 1] == l.current;
    }
  }

  lemma {:induction false} ConsecutiveParts(head: seq<LogEntry>, rest: seq<LogEntry>, last: nat)
    requires Consecutive(head + rest, last)
    ensures Consecutive(rest, last)
    ensures forall i :: 0 <= i < |head| ==> head[i].sequence <= Last(head).sequence
    ensures head != [] ==> forall i :: 0 <= i < |rest| ==> rest[i].sequence > Last(head).sequence
  {
    var all := head + rest;
    assert forall i :: 0 <= i < |rest| ==> rest[i] == all[|head| + i];
    assert forall i :: 0 <= i < |head| ==> head[i] == all[i];
  }

  /** Behind a file that is kept although it holds entries, everything is kept. */
  lemma {:induction false} KeptBehind(l: Log, names: seq<FileName>, before: nat, last: nat)
    requires names != [] && CurrentLast(l, names) && (forall name :: name in names ==> name in l.files)
    requires Consecutive(l.files[names[0]] + Concat(l.files, names[1..]), last)
    requires l.files[names[0]] != [] && !Droppable(l, names[0], before)
    ensures Concat(Truncated(l, before).files, Kept(l, names[1..], before)) == Concat(l.files, names[1..])
  {
    CurrentLastTail(l, names);
    ConsecutiveParts(l.files[names[0]], Concat(l.files, names[1..]), last);
    AllKept(l, names[1..], before);
  }

  /** Truncation drops whole files from the front of the log, and only entries before the bound. */
  lemma {:induction false} KeptContents(l: Log, names: seq<FileName>, before: nat, last: nat, k: nat)
    requires CurrentLast(l, names) && forall name :: name in names ==> name in l.files
    requires Consecutive(Concat(l.files, names), last) && k + 1 >= before
    ensures Trims(Concat(l.files, names), Concat(Truncated(l, before).files, Kept(l, names, before)), k)
  {
    if names != [] {
      var head, rest := l.files[names[0]], Concat(l.files, names[1..]);
      ConsecutiveParts(head, rest, last);
      CurrentLastTail(l, names);
      KeptContents(l, names[1..], before, last, k);
      KeptHead(l, names, before);
      var kept := Concat(Truncated(l, before).files, Kept(l, names[1..], before));
      if Droppable(l, names[0], before) {
        DropHead(head, rest, kept, k);
      } else {
        if head != [] {
          KeptBehind(l, names, before, last);
        }
        KeepHead(head, rest, kept, k);
      }
    }
  }

  lemma {:induction false} KeptHead(l: Log, names: seq<FileName>, before: nat)
    requires names != [] && names[0] in l.files
    ensures var files' := Truncated(l, before).files;
            var rest := Concat(files', Kept(l, names[1..], before));
            Concat(files', Kept(l, names, before))
              == if Droppable(l, names[0], before) then rest else l.files[names[0]] + rest
  {
    var tail := Kept(l, names[1..], before);
    assert ([names[0]] + tail)[1..] == tail;
    assert Droppable(l, names[0], before) ==> Kept(l, names, before) == [] + tail == tail;
  }

  lemma {:induction false} KeptMembers(l: Log, names: seq<FileName>, before: nat)
    requires Distinct(names)
    ensures forall name :: name in Kept(l, names, before) <==> name in names && !Droppable(l, name, before)
    ensures Distinct(Kept(l, names, before))
    ensures names != [] && Last(names) == l.current ==>
              Kept(l, names, before) != [] && Last(Kept(l, names, before)) == l.current
  {
    if names != [] {
      KeptMembers(l, names[1..], before);
      assert names == [names[0]] + names[1..];
    }
  }

  lemma {:induction false} TrimsConsecutive(all: seq<LogEntry>, kept: seq<LogEntry>, last: nat, k: nat)
    requires Consecutive(all, last) && Trims(all, kept, k)
    ensures Consecutive(kept, last)
  {
    assert forall i :: 0 <= i < |kept| ==> kept[i] == all[|all| - |kept| + i];
  }

  lemma {:induction false} TruncatedFramed(l: Log, before: nat)
    requires Framed(l.files, l.order, l.current, l.sequence)
    ensures var t := Truncated(l, before); Framed(t.files, t.order, t.current, t.sequence)
  {
    KeptMembers(l, l.order, before);
  }

  /** Truncating before `before` never changes what replay returns from `before - 1` on,
      and leaves a consecutive log. */
  lemma {:induction false} TruncateKeepsReplay(l: Log, before: nat, k: nat)
    requires Good(l) && k + 1 >= before
    ensures Good(Truncated(l, before))
    ensures After(Contents(Truncated(l, before)), k) == After(Contents(l), k)
  {
    TruncatedFramed(l, before);
    assert CurrentLast(l, l.order);
    KeptContents(l, l.order, before, l.sequence, k);
    TrimsConsecutive(Contents(l), Contents(Truncated(l, before)), l.sequence, k);
  }

  // ---------- whole runs ----------

  datatype Action =
    | Append(payload: Payload, bytes: nat, time: int)
    | Truncate(before: nat)

  function Act(l: Log, a: Action, maxFileSize: nat): Log {
    match a
    case Append(payload, bytes, time) => Appended(l, payload, bytes, time, maxFileSize)
    case Truncate(before) => Truncated(l, before)
  }

  function Run(time: int, actions: seq<Action>, maxFileSize: nat): Log {
    if actions == [] then Started(time) else Act(Run(time, Init(actions), maxFileSize), Last(actions), maxFileSize)
  }

  /** Everything that was ever appended, numbered from 1. */
  function Journal(actions: seq<Action>): seq<LogEntry> {
    if actions == [] then []
    else
      var before := Journal(Init(actions));
      match Last(actions)
      case Append(payload, bytes, _) => before + [LogEntry(|before| + 1, payload, bytes)]
      case Truncate(_) => before
  }

  /** The largest bound any truncation of the run was given. */
  function Bound(actions: seq<Action>): nat {
    if actions == [] then 0
    else
      var b := Bound(Init(actions));
      if Last(actions).Truncate? && Last(actions).before > b then Last(actions).before else b
  }

  lemma {:induction false} AppendContents(l: Log, journal: seq<LogEntry>, payload: Payload, bytes: nat, time: int,
                                          maxFileSize: nat, k: nat)
    requires Good(l) && l.sequence == |journal| && After(Contents(l), k) == After(journal, k)
    ensures var l' := Appended(l, payload, bytes, time, maxFileSize);
            && Good(l') && l'.sequence == |journal| + 1
            && After(Contents(l'), k) == After(journal + [LogEntry(|journal| + 1, payload, bytes)], k)
  {
    AppendKeepsGood(l, payload, bytes, time, maxFileSize);
    var entry := LogEntry(l.sequence + 1, payload, bytes);
    AfterConcat(Contents(l), [entry], k);
    AfterConcat(journal, [entry], k);
  }

  lemma {:induction false} StartedGood(time: int)
    ensures Good(Started(time)) && Contents(Started(time)) == []
  {
    var name := FileName(time, 0);
    var l := Started(time);
    assert [name][1..] == [];
    assert Concat(l.files, [name]) == l.files[name] + Concat(l.files, []);
  }

  lemma {:induction false} RunContents(time: int, actions: seq<Action>, maxFileSize: nat, k: nat)
    requires k + 1 >= Bound(actions)
    ensures var l := Run(time, actions, maxFileSize);
            && Good(l) && l.sequence == |Journal(actions)|
            && After(Contents(l), k) == After(Journal(actions), k)
  {
    if actions == [] {
      StartedGood(time);
    } else {
      RunContents(time, Init(actions), maxFileSize, k);
      ActContents(Run(time, Init(actions), maxFileSize), actions, maxFileSize, k);
    }
  }

  lemma {:induction false} ActContents(l: Log, actions: seq<Action>, maxFileSize: nat, k: nat)
    requires actions != [] && k + 1 >= Bound(actions)
    requires Good(l) && l.sequence == |Journal(Init(actions))|
             && After(Contents(l), k) == After(Journal(Init(actions)), k)
    ensures var l' := Act(l, Last(actions), maxFileSize);
            && Good(l') && l'.sequence == |Journal(actions)|
            && After(Contents(l'), k) == After(Journal(actions), k)
  {
    match Last(actions) {
      case Append(payload, bytes, t) => AppendContents(l, Journal(Init(actions)), payload, bytes, t, maxFileSize, k);
      case Truncate(before) => TruncateKeepsReplay(l, before, k);
    }
  }

  /** In every run of appends, rotations and truncations, replay from `k` returns exactly the entries
      appended as numbers k+1, k+2, ..., whatever the directory order,
      unless a truncation was given a bound above k+1. */
  lemma {:induction false} ReplayIsExact(time: int, actions: seq<Action>, maxFileSize: nat, listing: seq<FileName>,
                                         k: nat)
    requires k + 1 >= Bound(actions) && Lists(listing, Run(time, actions, maxFileSize).files)
    ensures var all := Journal(actions);
            Replayed(Run(time, actions, maxFileSize), listing, k) == if k <= |all| then all[k..] else []
  {
    RunContents(time, actions, maxFileSize, k);
    ReplayIgnoresListing(Run(time, actions, maxFileSize), listing, k);
    JournalNumbered(actions);
    AfterIsSuffix(Journal(actions), |Journal(actions)|, k);
  }

  lemma {:induction false} JournalNumbered(actions: seq<Action>)
    ensures Consecutive(Journal(actions), |Journal(actions)|)
  {
    if actions != [] {
      JournalNumbered(Init(actions));
    }
  }

  // ---------- what truncation removes ----------

  lemma {:induction false} RunSnoc(time: int, actions: seq<Action>, a: Action, maxFileSize: nat)
    ensures Run(time, actions + [a], maxFileSize) == Act(Run(time, actions, maxFileSize), a, maxFileSize)
  {
    assert Init(actions + [a]) == actions && Last(actions + [a]) == a;
  }

  /** After any run a truncation deletes exactly the files that are not current and whose last entry is below
      the bound; the others, empty ones included, keep their entries. */
  lemma {:induction false} TruncateDeletesIff(time: int, actions: seq<Action>, before: nat, maxFileSize: nat)
    ensures var l := Run(time, actions, maxFileSize);
            var t := Run(time, actions + [Truncate(before)], maxFileSize);
            && t.current == l.current && t.files.Keys <= l.files.Keys
            && (forall name :: name in l.files ==>
                  (name !in t.files <==> name != l.current && l.files[name] != []
                                         && l.files[name][|l.files[name]| - 1].sequence < before))
            && (forall name :: name in t.files ==> t.files[name] == l.files[name])
  {
    RunSnoc(time, actions, Truncate(before), maxFileSize);
  }

  /** What is still held of the entries below the bound lies in the current file, or in a file that also
      holds an entry the bound protects. */
  lemma {:induction false} TruncateLeavesLittle(time: int, actions: seq<Action>, before: nat, maxFileSize: nat,
                                                name: FileName, e: LogEntry)
    requires name in Run(time, actions + [Truncate(before)], maxFileSize).files
    requires e in Run(time, actions + [Truncate(before)], maxFileSize).files[name] && e.sequence < before
    ensures var t := Run(time, actions + [Truncate(before)], maxFileSize);
            name == t.current || exists kept :: kept in t.files[name] && kept.sequence >= before
  {
    var t := Run(time, actions + [Truncate(before)], maxFileSize);
    TruncateDeletesIff(time, actions, before, maxFileSize);
    if name != t.current {
      assert Last(t.files[name]) in t.files[name];
    }
  }

  // ---------- file sizes ----------

  function Bytes(entries: seq<LogEntry>): nat {
    if entries == [] then 0 else Bytes(Init(entries)) + Last(entries).bytes
  }

  predicate Fits(entries: seq<LogEntry>, maxFileSize: nat) {
    |entries| <= 1 || Bytes(entries) <= maxFileSize
  }

  predicate Sized(l: Log, maxFileSize: nat) {
    && l.current in l.files && l.size == Bytes(l.files[l.current])
    && forall name :: name in l.files ==> Fits(l.files[name], maxFileSize)
  }

  lemma {:induction false} RoomedKeepsSized(l: Log, bytes: nat, time: int, maxFileSize: nat)
    requires Good(l) && Sized(l, maxFileSize)
    ensures var r := Roomed(l, bytes, time, maxFileSize);
            Sized(r, maxFileSize) && r.open && ((r.size == 0
              && r.files[r.current] == []) || r.size + bytes <= maxFileSize)
  {
    assert FileName(time, l.sequence + 1) !in l.files;
  }

  lemma {:induction false} WriteKeepsSized(l: Log, entry: LogEntry, maxFileSize: nat)
    requires Sized(l, maxFileSize) && l.open
    requires (l.size == 0 && l.files[l.current] == []) || l.size + entry.bytes <= maxFileSize
    ensures Sized(Written(l, entry), maxFileSize)
  {
    var file := l.files[l.current];
    assert Init(file + [entry]) == file && Last(file + [entry]) == entry;
    assert Fits(file + [entry], maxFileSize);
  }

  lemma {:induction false} AppendKeepsSized(l: Log, payload: Payload, bytes: nat, time: int, maxFileSize: nat)
    requires Good(l) && Sized(l, maxFileSize)
    ensures Sized(Appended(l, payload, bytes, time, maxFileSize), maxFileSize)
  {
    RoomedKeepsSized(l, bytes, time, maxFileSize);
    WriteKeepsSized(Roomed(l, bytes, time, maxFileSize), LogEntry(l.sequence + 1, payload, bytes), maxFileSize);
  }

  /** Every file respects the size limit or holds a single entry that alone exceeds it. */
  lemma {:induction false} FilesFit(time: int, actions: seq<Action>, maxFileSize: nat)
    ensures Sized(Run(time, actions, maxFileSize), maxFileSize)
  {
    if actions != [] {
      FilesFit(time, Init(actions), maxFileSize);
      RunContents(time, Init(actions), maxFileSize, Bound(Init(actions)));
      if Last(actions).Append? {
        var a := Last(actions);
        AppendKeepsSized(Run(time, Init(actions), maxFileSize), a.payload, a.bytes, a.time, maxFileSize);
      }
    }
  }

  lemma {:induction false} EntryPlaced(l: Log, payload: Payload, bytes: nat, now: int, maxFileSize: nat)
    requires l.open && l.current in l.files && forall name :: name in l.files ==> name.sequence <= l.sequence
    ensures var l', e := Appended(l, payload, bytes, now, maxFileSize), LogEntry(l.sequence + 1, payload, bytes);
            if l.size + bytes <= maxFileSize
            then l'.current == l.current && l'.files == l.files[l.current := l.files[l.current] + [e]]
            else l'.current == FileName(now, e.sequence) && l'.current !in l.files
                 && l'.files == l.files[l'.current := [e]]
  {
    var name, e := FileName(now, l.sequence + 1), LogEntry(l.sequence + 1, payload, bytes);
    assert name !in l.files && [] + [e] == [e];
    assert l.files[name := []][name := [e]] == l.files[name := [e]];
  }

  /** After any run the next entry goes to the current file as long as the file's bytes and its own do not exceed
      the limit, and otherwise to a new file of its own. */
  lemma {:induction false} AppendRotatesIff(time: int, actions: seq<Action>, maxFileSize: nat, payload: Payload,
                                            bytes: nat, now: int)
    ensures var l, l' := Run(time, actions, maxFileSize),
                         Run(time, actions + [Action.Append(payload, bytes, now)], maxFileSize);
            var e := LogEntry(|Journal(actions)| + 1, payload, bytes);
            && l.current in l.files
            && if Bytes(l.files[l.current]) + bytes <= maxFileSize
               then l'.current == l.current && l'.files == l.files[l.current := l.files[l.current] + [e]]
               else l'.current == FileName(now, e.sequence) && l'.current !in l.files
                    && l'.files == l.files[l'.current := [e]]
  {
    RunSnoc(time, actions, Action.Append(payload, bytes, now), maxFileSize);
    FilesFit(time, actions, maxFileSize);
    RunContents(time, actions, maxFileSize, Bound(actions));
    EntryPlaced(Run(time, actions, maxFileSize), payload, bytes, now, maxFileSize);
  }

  // ---------- the log ----------

  /** The directory after the truncation loop has visited `names`. */
  function WithoutDropped(l: Log, names: seq<FileName>, before: nat): map<FileName, seq<LogEntry>> {
    map name | name in l.files && !(name in names && Droppable(l, name, before)) :: l.files[name]
  }

  lemma {:induction false} DropOne(l: Log, listing: seq<FileName>, i: nat, before: nat)
    requires i < |listing| && Distinct(listing) && listing[i] in l.files
    ensures var done, name := WithoutDropped(l, listing[..i], before), listing[i];
            && name in done && done[name] == l.files[name]
            && WithoutDropped(l, listing[..i + 1], before) == if Droppable(l, name, before) then done - {name} else done
  {
    assert listing[i] !in listing[..i];
    assert listing[..i + 1] == listing[..i] + [listing[i]];
  }

  class WriteAheadLog {
    var files: map<FileName, seq<LogEntry>>
    var currentFile: FileName
    var sequence: nat
    var open: bool
    var currentFileSize: nat
    var entriesWritten: nat
    ghost var order: seq<FileName>
    const maxFileSize: nat

    ghost function Model(): Log
      reads this
    {
      Log(files, order, currentFile, open, sequence, currentFileSize)
    }

    /** Opens the log in an empty directory. */
    constructor (maxFileSize: nat, time: int)
      ensures Model() == Started(time) && this.maxFileSize == maxFileSize && entriesWritten == 0
    {
      this.maxFileSize := maxFileSize;
      currentFile := FileName(time, 0);
      files := map[FileName(time, 0) := []];
      order := [FileName(time, 0)];
      sequence, open, currentFileSize, entriesWritten := 0, true, 0, 0;
    }

    method RotateFile(time: int)
      modifies this`files, this`order, this`currentFile, this`open, this`currentFileSize
      ensures Model() == Rotated(old(Model()), time)
      ensures currentFile == FileName(time, sequence) && open && currentFileSize == 0
      ensures files == if currentFile in old(files) then old(files) else old(files)[currentFile := []]
    {
      currentFile := FileName(time, sequence);
      if currentFile !in files {
        files := files[currentFile := []];
        order := order + [currentFile];
      } else {
        assert files[currentFile := files[currentFile]] == files;
      }
      open := true;
      currentFileSize := 0;
    }

    method Append(payload: Payload, bytes: nat, time: int) returns (number: nat)
      modifies this
      ensures Model() == Appended(old(Model()), payload, bytes, time, maxFileSize)
      ensures number == old(sequence) + 1
      ensures entriesWritten == old(entriesWritten) + if open then 1 else 0
      ensures if old(currentFileSize) + bytes > maxFileSize then open && currentFile == FileName(time, number)
              else open == old(open) && currentFile == old(currentFile)
      ensures open ==> currentFile in files && files[currentFile] != []
                       && Last(files[currentFile]) == LogEntry(number, payload, bytes)
      ensures !open ==> files == old(files)
    {
      sequence := sequence + 1;
      var entry := LogEntry(sequence, payload, bytes);
      if currentFileSize + bytes > maxFileSize {
        RotateFile(time);
      }
      if open {
        var file := if currentFile in files then files[currentFile] else [];
        files := files[currentFile := file + [entry]];
        currentFileSize := currentFileSize + bytes;
        entriesWritten := entriesWritten + 1;
      }
      return sequence;
    }

    method Stop()
      modifies this`open
      ensures Model() == old(Model()).(open := false)
    {
      open := false;
    }

    method Replay(listing: seq<FileName>, fromSequence: nat) returns (entries: seq<LogEntry>)
      ensures entries == Replayed(Model(), listing, fromSequence)
    {
      entries := [];
      for i := 0 to |listing|
        invariant entries == After(Concat(files, listing[..i]), fromSequence)
      {
        var lines := if listing[i] in files then files[listing[i]] else [];
        ghost var before := entries;
        for j := 0 to |lines|
          invariant entries == before + After(lines[..j], fromSequence)
        {
          assert lines[..j + 1] == lines[..j] + [lines[j]] && [lines[j]][1..] == [];
          AfterConcat(lines[..j], [lines[j]], fromSequence);
          if lines[j].sequence > fromSequence {
            entries := entries + [lines[j]];
          }
        }
        assert lines[..|lines|] == lines;
        assert listing[..i + 1] == listing[..i] + [listing[i]] && [listing[i]][1..] == [];
        ConcatAppend(files, listing[..i], [listing[i]]);
        assert Concat(files, [listing[i]]) == lines + [] == lines;
        AfterConcat(Concat(files, listing[..i]), lines, fromSequence);
      }
      assert listing[..|listing|] == listing;
      entries := Sort(SequenceOrder, entries);
    }

    method Truncate(listing: seq<FileName>, before: nat)
      requires Lists(listing, files)
      modifies this`files, this`order
      ensures Model() == Truncated(old(Model()), before)
      ensures files.Keys <= old(files).Keys && forall name :: name in files ==> files[name] == old(files)[name]
      ensures forall name :: name in old(files) ==>
                (name !in files <==> name != currentFile && old(files)[name] != []
                                     && Last(old(files)[name]).sequence < before)
    {
      ghost var l := Model();
      for i := 0 to |listing|
        invariant order == l.order && files == WithoutDropped(l, listing[..i], before)
      {
        var name := listing[i];
        DropOne(l, listing, i, before);
        if name != currentFile {
          var lines := files[name];
          if lines != [] && lines[|lines| - 1].sequence < before {
            files := files - {name};
          }
        }
      }
      assert listing[..|listing|] == listing;
      order := Kept(l, l.order, before);
    }
  }
}
