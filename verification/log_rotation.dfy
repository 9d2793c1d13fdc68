// A log file of bounded size with numbered older files behind it.
module LogRotation {
  import opened Basics

  type Byte = x: int | 0 <= x < 256
  type Record = seq<Byte>

  // A file holds whole records; only records are ever appended to it.
  type LogFile = seq<Record>

  function Size(file: LogFile): nat {
    if file == [] then 0 else Size(file[..|file| - 1]) + |file[|file| - 1]|
  }

  datatype Result = Written | InvalidParameter | Overflow

  // ---- the files by age: the current one first ----

  // What writing a record makes of the files.
  function Logged(files: seq<LogFile>, record: Record, maximum: nat, rotations: nat): seq<LogFile> {
    if files == [] then [[record]]
    else if Size(files[0]) + |record| > maximum && rotations > 0 then
      [[record]] + files[..if |files| <= rotations then |files| else rotations]
    else [files[0] + [record]] + files[1..]
  }

  predicate Accepted(record: Record, maximum: nat) { maximum > 0 && |record| <= maximum }

  // All retained records, oldest first.
  function Retained(files: seq<LogFile>): seq<Record> {
    if files == [] then [] else Retained(files[1..]) + files[0]
  }

  function AllAccepted(records: seq<Record>, maximum: nat): seq<Record> {
    if records == [] then []
    else
      var last := records[|records| - 1];
      AllAccepted(records[..|records| - 1], maximum) + (if Accepted(last, maximum) then [last] else [])
  }

  // The files after a run of writes that starts with none.
  function RunLog(records: seq<Record>, maximum: nat, rotations: nat): seq<LogFile> {
    if records == [] then []
    else
      var before := RunLog(records[..|records| - 1], maximum, rotations);
      var last := records[|records| - 1];
      if Accepted(last, maximum) then Logged(before, last, maximum, rotations) else before
  }

  predicate Bounded(files: seq<LogFile>, maximum: nat) { forall i :: 0 <= i < |files| ==> Size(files[i]) <= maximum }

  predicate IsSuffix(part: seq<Record>, whole: seq<Record>) {
    |part| <= |whole| && part == whole[|whole| - |part|..]
  }

  lemma SizeOfOne(record: Record)
    ensures Size([record]) == |record|
  {
    assert [record][..0] == [];
  }

  lemma SizeNext(file: LogFile, record: Record)
    ensures Size(file + [record]) == Size(file) + |record|
  {
    assert (file + [record])[..|file|] == file;
  }

  lemma {:induction false} RetainedDrops(files: seq<LogFile>, n: nat)
    requires n <= |files|
    ensures IsSuffix(Retained(files[..n]), Retained(files))
  {
    if n > 0 {
      RetainedDrops(files[1..], n - 1);
      assert files[..n][1..] == files[1..][..n - 1] && files[..n][0] == files[0];
      SuffixGrows(Retained(files[1..][..n - 1]), Retained(files[1..]), files[0]);
    } else {
      assert files[..0] == [] && Retained(files)[|Retained(files)|..] == [];
    }
  }

  lemma SuffixGrows(part: seq<Record>, whole: seq<Record>, more: seq<Record>)
    requires IsSuffix(part, whole)
    ensures IsSuffix(part + more, whole + more)
  {
    assert (whole + more)[|whole| - |part|..] == whole[|whole| - |part|..] + more;
  }

  lemma SuffixOfSuffix(a: seq<Record>, b: seq<Record>, c: seq<Record>)
    requires IsSuffix(a, b) && IsSuffix(b, c)
    ensures IsSuffix(a, c)
  {
    assert c[|c| - |b|..][|b| - |a|..] == c[|c| - |a|..];
  }

  lemma RetainedNewest(first: LogFile, rest: seq<LogFile>)
    ensures Retained([first] + rest) == Retained(rest) + first
  {
    assert ([first] + rest)[1..] == rest;
  }

  // A file is put behind another only when the first record of the newer one did not fit into it any more.
  predicate Packed(files: seq<LogFile>, maximum: nat) {
    (forall i :: 0 <= i < |files| ==> files[i] != []) &&
    forall i :: 0 < i < |files| ==> Size(files[i]) + |files[i - 1][0]| > maximum
  }

  // One write keeps the newest records, loses only from the old end, and keeps every file within its size.
  lemma LoggedFacts(files: seq<LogFile>, record: Record, maximum: nat, rotations: nat)
    requires Accepted(record, maximum)
    ensures var r := Logged(files, record, maximum, rotations);
            && IsSuffix(Retained(r), Retained(files) + [record])
            && (|files| <= rotations + 1 ==> |files| <= |r| <= rotations + 1)
            && (|r| <= rotations ==> Retained(r) == Retained(files) + [record])
            && (rotations > 0 && Bounded(files, maximum) ==> Bounded(r, maximum))
  {
    hide Retained, Size;
    SizeOfOne(record);
    var r := Logged(files, record, maximum, rotations);
    if files == [] {
      RetainedNewest([record], []);
      assert [[record]] + [] == [[record]];
      assert Retained([]) == [] by { NothingRetained(); }
    } else if Size(files[0]) + |record| > maximum && rotations > 0 {
      var n := if |files| <= rotations then |files| else rotations;
      RetainedNewest([record], files[..n]);
      RetainedDrops(files, n);
      if |r| <= rotations { assert files[..n] == files; }
      SuffixGrows(Retained(files[..n]), Retained(files), [record]);
      assert forall i :: 0 < i < |r| ==> r[i] == files[i - 1];
    } else {
      RetainedNewest(files[0] + [record], files[1..]);
      RetainedNewest(files[0], files[1..]);
      assert files == [files[0]] + files[1..];
      assert Retained(files[1..]) + (files[0] + [record]) == Retained(files) + [record];
      SizeNext(files[0], record);
      assert forall i :: 0 < i < |r| ==> r[i] == files[i];
    }
  }

  lemma LoggedNewest(files: seq<LogFile>, record: Record, maximum: nat, rotations: nat)
    ensures var r := Logged(files, record, maximum, rotations); r != [] && r[0] != [] && r[0][|r[0]| - 1] == record
  {
    hide Size;
  }

  lemma LoggedPacked(files: seq<LogFile>, record: Record, maximum: nat, rotations: nat)
    requires Packed(files, maximum)
    ensures Packed(Logged(files, record, maximum, rotations), maximum)
  {
    hide Size;
    var r := Logged(files, record, maximum, rotations);
    if files != [] && Size(files[0]) + |record| > maximum && rotations > 0 {
      assert forall i :: 0 < i < |r| ==> r[i] == files[i - 1];
    } else {
      assert forall i :: 0 < i < |r| ==> r[i] == files[i];
      if files != [] { assert r[0][0] == files[0][0]; }
    }
  }

  lemma NothingPacked(maximum: nat)
    ensures Packed([], maximum)
  {}

  lemma NothingRetained()
    ensures Retained([]) == []
  {}

  // Over any run from no files: what is kept, from the oldest file to the newest, is the end of what was accepted. The
  // newest record is always kept, there are never more files than one and the rotations, records are lost only once
  // there are that many, and then every older file is as full as the records allowed.
  lemma {:induction false} RunKeepsTheNewest(records: seq<Record>, maximum: nat, rotations: nat)
    ensures IsSuffix(Retained(RunLog(records, maximum, rotations)), AllAccepted(records, maximum))
    ensures var files, accepted := RunLog(records, maximum, rotations), AllAccepted(records, maximum);
            && (accepted != [] ==> files != [] && files[0] != [] && files[0][|files[0]| - 1] == accepted[|accepted| - 1])
            && |files| <= rotations + 1
            && (Retained(files) != accepted ==> |files| == rotations + 1)
            && Packed(files, maximum)
  {
    hide Retained, Logged, Packed, IsSuffix;
    if records == [] {
      NothingRetained();
      NothingPacked(maximum);
      assert IsSuffix([], []) by { NothingIsSuffix(); }
    } else {
      var init, last := records[..|records| - 1], records[|records| - 1];
      var before := RunLog(init, maximum, rotations);
      RunKeepsTheNewest(init, maximum, rotations);
      if Accepted(last, maximum) {
        LoggedFacts(before, last, maximum, rotations);
        LoggedNewest(before, last, maximum, rotations);
        LoggedPacked(before, last, maximum, rotations);
        SuffixGrows(Retained(before), AllAccepted(init, maximum), [last]);
        SuffixOfSuffix(Retained(Logged(before, last, maximum, rotations)), Retained(before) + [last], AllAccepted(init, maximum) + [last]);
      } else {
        assert AllAccepted(records, maximum) == AllAccepted(init, maximum);
      }
    }
  }

  lemma NothingIsSuffix()
    ensures IsSuffix([], [])
  {}

  lemma {:induction false} RunIsBounded(records: seq<Record>, maximum: nat, rotations: nat)
    requires rotations > 0
    ensures Bounded(RunLog(records, maximum, rotations), maximum)
  {
    hide Bounded, Logged;
    if records == [] {
      assert Bounded([], maximum) by { NothingExceeds(maximum); }
    } else {
      RunIsBounded(records[..|records| - 1], maximum, rotations);
      var last := records[|records| - 1];
      if Accepted(last, maximum) { LoggedFacts(RunLog(records[..|records| - 1], maximum, rotations), last, maximum, rotations); }
    }
  }

  lemma NothingExceeds(maximum: nat)
    ensures Bounded([], maximum)
  {}

  // Without rotations the current file outgrows any limit: two records of the full size are enough.
  lemma OutgrowsWithoutRotations(maximum: nat)
    requires maximum > 0
    ensures var record := Repeat(maximum, 0); !Bounded(RunLog([record, record], maximum, 0), maximum)
  {
    var record: Record := Repeat(maximum, 0);
    assert [record, record][..1] == [record] && [record][..0] == [];
    assert RunLog([record], maximum, 0) == [[record]];
    var r := RunLog([record, record], maximum, 0);
    assert r == [[record] + [record]];
    SizeOfOne(record);
    SizeNext([record], record);
    assert Size(r[0]) > maximum;
  }

  // The size bound holds over every run exactly when there is at least one rotation.
  lemma BoundedExactlyWithRotations(maximum: nat, rotations: nat)
    requires maximum > 0
    ensures rotations > 0 <==> forall records :: Bounded(RunLog(records, maximum, rotations), maximum)
  {
    if rotations > 0 {
      forall records ensures Bounded(RunLog(records, maximum, rotations), maximum) { RunIsBounded(records, maximum, rotations); }
    } else {
      OutgrowsWithoutRotations(maximum);
    }
  }

  // ---- the sink and its directory ----

  // The files of the directory by number: 0 is the current one, k the one with suffix ".k".
  ghost predicate Numbered(directory: map<nat, LogFile>, files: seq<LogFile>) {
    && (forall k: nat :: k in directory <==> k < |files|)
    && (forall k: nat :: k < |files| ==> directory[k] == files[k])
  }

  class BoundedFileSink {
    const hasPath: bool
    const maximum: nat
    const rotations: nat
    var directory: map<nat, LogFile>
    ghost var files: seq<LogFile>

    // The numbered files are contiguous.
    ghost predicate Valid()
      reads this
    {
      Numbered(directory, files) && |files| <= rotations + 1
    }

    constructor (path: bool, maximumBytes: nat, rotationCount: nat)
      ensures Valid() && files == [] && hasPath == path && maximum == maximumBytes && rotations == rotationCount
    {
      hasPath, maximum, rotations := path, maximumBytes, rotationCount;
      directory, files := map[], [];
    }

    method Write(record: Record) returns (result: Result)
      requires Valid()
      modifies this
      ensures Valid()
      ensures result == if !hasPath || maximum == 0 then InvalidParameter else if |record| > maximum then Overflow else Written
      ensures files == if result == Written then Logged(old(files), record, maximum, rotations) else old(files)
    {
      hide Size;
      if !hasPath || maximum == 0 { return InvalidParameter; }
      if |record| > maximum { return Overflow; }
      ghost var before := files;
      if 0 in directory && Size(directory[0]) + |record| > maximum { Rotate(); }
      ghost var middle := directory;
      directory := directory[0 := (if 0 in directory then directory[0] else []) + [record]];
      files := Logged(before, record, maximum, rotations);
      result := Written;
      AppendNumbered(before, middle, record, maximum, rotations);
    }

    // Every numbered file moves up by one, the last one goes, and the current one becomes the first.
    method Rotate()
      requires Valid() && files != []
      modifies this`directory
      ensures Rotated(old(files), directory, rotations)
    {
      hide Moved, Rotated;
      ghost var start := directory;
      var index := rotations;
      NothingMoved(start, rotations);
      while index > 0
        invariant 0 <= index <= rotations
        invariant Moved(start, directory, index, rotations)
      {
        var from, to := index - 1, index;
        MoveStep(start, directory, index, rotations);
        directory := directory - {to};
        if from in directory { directory := directory[to := directory[from]] - {from}; }
        index := index - 1;
      }
      AllMoved(files, start, directory, rotations);
    }
  }

  lemma NothingMoved(start: map<nat, LogFile>, rotations: nat)
    ensures Moved(start, start, rotations, rotations)
  {}

  lemma AllMoved(files: seq<LogFile>, start: map<nat, LogFile>, now: map<nat, LogFile>, rotations: nat)
    requires Numbered(start, files) && |files| <= rotations + 1 && files != [] && Moved(start, now, 0, rotations)
    ensures Rotated(files, now, rotations)
  {
    if rotations > 0 {
      var n := if |files| <= rotations then |files| else rotations;
      forall k: nat ensures k in now <==> 0 < k <= n {}
    }
  }

  // After the moves down to `index`: the files above it have moved up by one, those below are where they were.
  ghost predicate Moved(start: map<nat, LogFile>, now: map<nat, LogFile>, index: nat, rotations: nat) {
    && (forall k: nat :: k < index ==> (k in now <==> k in start) && (k in start ==> now[k] == start[k]))
    && (forall k: nat :: index < k <= rotations ==> (k in now <==> k - 1 in start) && (k - 1 in start ==> now[k] == start[k - 1]))
    && (forall k: nat :: k > rotations ==> (k in now <==> k in start) && (k in start ==> now[k] == start[k]))
    && (index < rotations ==> index !in now)
    && (index == rotations ==> (index in now <==> index in start) && (index in start ==> now[index] == start[index]))
  }

  lemma MoveStep(start: map<nat, LogFile>, now: map<nat, LogFile>, index: nat, rotations: nat)
    requires 0 < index <= rotations && Moved(start, now, index, rotations)
    ensures var removed := now - {index};
            Moved(start, if index - 1 in removed then removed[index := removed[index - 1]] - {index - 1} else removed, index - 1, rotations)
  {}

  // What rotating leaves of contiguous files.
  ghost predicate Rotated(files: seq<LogFile>, now: map<nat, LogFile>, rotations: nat) {
    if rotations == 0 then Numbered(now, files)
    else
      var n := if |files| <= rotations then |files| else rotations;
      && (forall k: nat :: k in now <==> 0 < k <= n)
      && (forall k: nat :: 0 < k <= n ==> now[k] == files[k - 1])
  }

  // Appending the record to the current file, new or not, gives the files the write is meant to leave.
  lemma AppendNumbered(files: seq<LogFile>, middle: map<nat, LogFile>, record: Record, maximum: nat, rotations: nat)
    requires |files| <= rotations + 1
    requires if files != [] && Size(files[0]) + |record| > maximum then Rotated(files, middle, rotations) else Numbered(middle, files)
    ensures Numbered(middle[0 := (if 0 in middle then middle[0] else []) + [record]], Logged(files, record, maximum, rotations))
    ensures |Logged(files, record, maximum, rotations)| <= rotations + 1
  {
    hide Size;
  }
}
