/**
 * The coverage recorder of luacov/luacov.cpp: a growable array of per-file
 * records kept sorted by file name, a one-entry lookup cache, and a growable
 * bitfield per file in which the line hook sets bit `n` for line `n`.
 *
 * Each method is proved against the values of module CoverageTable: the
 * recorder's ghost `Table` is the sequence of (file name, lines whose bit is
 * set) in array order, and `Valid()` ties it to the arrays.
 */
module LuaCov {
  import opened CoverageTable

  /** `sizeof(luacov_File::filename)`. */
  const FilenameCapacity := 256
  /** Slots added to the results array when it is full, and its size after a reset. */
  const ResultsGrowth := 64
  /** The byte `'@'` that marks a chunk loaded from a file. */
  const At := 64

  /** A `source` of the form `@filename`. */
  predicate IsFileSource(source: Name)
  {
    |source| > 0 && source[0] == At
  }

  /** `luacov_File`: a file name and the bitfield of its executed lines. */
  class FileRecord {
    const filename: Name
    /** The bitfield's length in 32-bit words. */
    var numLines: int
    var lines: array<bv32>

    /** A new record holds `name` and 32 zeroed words. */
    constructor (name: Name)
      ensures filename == name && numLines == InitialWords
      ensures fresh(lines) && lines.Length == numLines
      ensures lines[..] == Zeros(InitialWords)
    {
      filename := name;
      numLines := InitialWords;
      lines := new bv32[InitialWords](_ => 0);
    }

    /**
     * `luacovI_resizelinebuf`: grow the bitfield to `GrownSize`, copying the
     * old words and zeroing the added ones, so no line is gained or lost.
     */
    method ResizeLineBuf(minLines: int)
      requires lines.Length == numLines && minLines > 0
      modifies this
      ensures numLines == GrownSize(old(numLines), minLines) && numLines > minLines
      ensures fresh(lines) && lines.Length == numLines
      ensures lines[..] == old(lines[..]) + Zeros(numLines - old(numLines))
    {
      var newSize := numLines * 2;
      if newSize <= minLines {
        newSize := minLines * 2;
      }
      var lb := new bv32[newSize];
      forall i | 0 <= i < numLines {
        lb[i] := lines[i];
      }
      forall i | numLines <= i < newSize {
        lb[i] := 0;
      }
      assert lb[..] == lines[..] + Zeros(newSize - numLines);
      lines := lb;
      numLines := newSize;
    }
  }

  /** `luacovI_setbit`: OR bit `bitnum & 31` into word `bitnum >> 5`, recording line `bitnum`. */
  method SetBit(buffer: array<bv32>, bitnum: nat)
    requires bitnum / 32 < buffer.Length
    modifies buffer
    ensures buffer[..] == SetLine(old(buffer[..]), bitnum)
  {
    buffer[bitnum / 32] := buffer[bitnum / 32] | Bit(bitnum % 32);
  }

  predicate StrictlyIncreasing(s: seq<nat>)
  {
    forall i, j :: 0 <= i < j < |s| ==> s[i] < s[j]
  }

  lemma AppendIncreasing(s: seq<nat>, x: nat)
    requires StrictlyIncreasing(s) && forall y :: y in s ==> y < x
    ensures StrictlyIncreasing(s + [x])
  {
    forall i, j | 0 <= i < j < |s| + 1 ensures (s + [x])[i] < (s + [x])[j] {
      if j == |s| {
        assert s[i] in s;
      }
    }
  }

  lemma WordAndBit(l: nat, b: nat)
    requires b < 32
    ensures (l * 32 + b) / 32 == l && (l * 32 + b) % 32 == b
  {
  }

  /**
   * The bit loops of `luacov_dump` for one file: the numbers `l*32+b` of the
   * set bits, in increasing order, and exactly the recorded lines.
   */
  method DumpLines(words: array<bv32>) returns (nums: seq<nat>)
    ensures StrictlyIncreasing(nums)
    ensures forall m :: m in nums <==> m in HitsOf(words[..])
  {
    nums := [];
    var l := 0;
    while l < words.Length
      invariant 0 <= l <= words.Length
      invariant StrictlyIncreasing(nums) && forall x :: x in nums ==> x < 32 * l
      invariant forall m: nat :: m in nums <==> m < 32 * l && BitSet(words[..], m)
    {
      var b := 0;
      while b < 32
        invariant 0 <= b <= 32
        invariant StrictlyIncreasing(nums) && forall x :: x in nums ==> x < 32 * l + b
        invariant forall m: nat :: m in nums <==> m < 32 * l + b && BitSet(words[..], m)
      {
        WordAndBit(l, b);
        if words[l] & Bit(b) != 0 {
          AppendIncreasing(nums, l * 32 + b);
          nums := nums + [l * 32 + b];
        }
        b := b + 1;
      }
      l := l + 1;
    }
  }

  /** One `<file>` element of the dump: the name and its line numbers in emitted order. */
  datatype FileDump = FileDump(name: Name, lines: seq<nat>)

  /** The records' bitfield sizes in words, in array order. */
  ghost function WordsOf(fs: seq<FileRecord>): (r: seq<int>)
    reads fs
    ensures |r| == |fs| && forall i :: 0 <= i < |fs| ==> r[i] == fs[i].numLines
  {
    if fs == [] then [] else WordsOf(fs[..|fs| - 1]) + [fs[|fs| - 1].numLines]
  }

  /** The record loop of `luacovI_countmemusage`: each record's struct and its bitfield. */
  method SumRecordBytes(records: array<FileRecord?>, n: nat, ghost words: seq<int>) returns (bytes: int)
    requires n <= records.Length && |words| == n
    requires forall k :: 0 <= k < n ==> records[k] != null && records[k].numLines == words[k]
    ensures bytes == RecordsBytes(words)
  {
    bytes := 0;
    var i := 0;
    while i < n
      invariant 0 <= i <= n
      invariant bytes == RecordsBytes(words[..i])
    {
      RecordsBytesStep(words, i);
      bytes := bytes + FileRecordBytes;
      bytes := bytes + IntBytes * records[i].numLines;
      i := i + 1;
    }
    assert words[..n] == words;
  }

  lemma RecordsBytesStep(words: seq<int>, i: nat)
    requires i < |words|
    ensures RecordsBytes(words[..i + 1]) == RecordsBytes(words[..i]) + RecordBytes(words[i])
  {
    assert words[..i + 1][..i] == words[..i];
  }

  function LinesOf(fs: seq<FileRecord>): set<array<bv32>>
    reads fs
  {
    set k | 0 <= k < |fs| :: fs[k].lines
  }

  /** Distinct records with distinct bitfields of at least 32 words, each as long as its `numLines`. */
  ghost predicate WellFormed(fs: seq<FileRecord>)
    reads fs
  {
    (forall i :: 0 <= i < |fs| ==> fs[i].lines.Length == fs[i].numLines >= InitialWords) &&
    (forall i, j :: 0 <= i < j < |fs| ==> fs[i] != fs[j] && fs[i].lines != fs[j].lines)
  }

  /** Entry `i` of `t` is record `i`'s name and bitfield. */
  ghost predicate Abstracts(fs: seq<FileRecord>, t: seq<Entry>)
    reads fs, LinesOf(fs)
  {
    |t| == |fs| &&
    forall i :: 0 <= i < |fs| ==> t[i] == Entry(fs[i].filename, fs[i].lines[..])
  }

  lemma InsertWellFormed(fs: seq<FileRecord>, me: FileRecord, i: nat)
    requires WellFormed(fs) && i <= |fs| && me.lines.Length == me.numLines >= InitialWords
    requires forall k :: 0 <= k < |fs| ==> fs[k] != me && fs[k].lines != me.lines
    ensures WellFormed(fs[..i] + ([me] + fs[i..]))
  {
    var gs := fs[..i] + ([me] + fs[i..]);
    forall k | 0 <= k < |gs| ensures gs[k] == if k < i then fs[k] else if k == i then me else fs[k - 1] {
    }
  }

  lemma InsertAbstracts(fs: seq<FileRecord>, t: seq<Entry>, me: FileRecord, i: nat)
    requires Abstracts(fs, t) && i <= |fs| && me.lines[..] == Zeros(InitialWords)
    ensures Abstracts(fs[..i] + ([me] + fs[i..]), t[..i] + ([Entry(me.filename, Zeros(InitialWords))] + t[i..]))
  {
    var gs := fs[..i] + ([me] + fs[i..]);
    var u := t[..i] + ([Entry(me.filename, Zeros(InitialWords))] + t[i..]);
    forall k | 0 <= k < |gs| ensures u[k] == Entry(gs[k].filename, gs[k].lines[..]) {
      if k < i {
        assert gs[k] == fs[k] && u[k] == t[k];
      } else if k > i {
        assert gs[k] == fs[k - 1] && u[k] == t[k - 1];
      }
    }
  }

  /** The `new` and `memcpy` of `luacovI_resizeresults`: a new array of `size` slots starting with the first `count` of `a`. */
  method CopyResults(a: array<FileRecord?>, count: int, size: int) returns (res: array<FileRecord?>)
    requires 0 <= count <= a.Length && count <= size
    ensures fresh(res) && res.Length == size && res[..count] == a[..count]
  {
    res := new FileRecord?[size];
    var i := 0;
    while i < count
      invariant 0 <= i <= count
      invariant forall k :: 0 <= k < i ==> res[k] == a[k]
      modifies res
    {
      res[i] := a[i];
      i := i + 1;
    }
    assert res[..count] == a[..count];
  }

  /** The globals `s_results`, `s_numResults`, `s_maxResults` and the lookup cache. */
  class Recorder {
    var results: array<FileRecord?>
    var numResults: int
    var maxResults: int
    /** `s_previousNode`; `s_previousName` is always its file name. */
    var previous: FileRecord?

    /** The records in array order. */
    ghost var Files: seq<FileRecord>
    /** Each record's name and bitfield, in array order. */
    ghost var Table: seq<Entry>
    ghost var Repr: set<object>

    ghost predicate Valid()
      reads this, Repr
    {
      this in Repr && results in Repr &&
      0 <= numResults <= maxResults == results.Length &&
      results[..numResults] == Files &&
      (forall f :: f in Files ==> f in Repr && f.lines in Repr && f.lines as object != results) &&
      WellFormed(Files) &&
      Abstracts(Files, Table) &&
      Sorted(Table) &&
      (previous != null ==> previous in Files)
    }

    /** The static initial state: no results array, no records, no cache. */
    constructor ()
      ensures Valid() && fresh(Repr)
      ensures Table == [] && numResults == 0 && maxResults == 0 && previous == null
    {
      results := new FileRecord?[0];
      numResults := 0;
      maxResults := 0;
      previous := null;
      Files := [];
      Table := [];
      Repr := {this, results};
    }

    /** `luacovI_resizeresults`: 64 more slots, the first `numResults` pointers copied. */
    method ResizeResults()
      requires Valid()
      modifies this
      ensures Valid() && fresh(results) && Repr == old(Repr) + {results}
      ensures maxResults == old(maxResults) + ResultsGrowth && numResults == old(numResults)
      ensures Files == old(Files) && Table == old(Table) && previous == old(previous)
    {
      maxResults := maxResults + ResultsGrowth;
      var res := CopyResults(results, numResults, maxResults);
      results := res;
      Repr := Repr + {res};
    }

    /**
     * The binary search of `luacovI_findfile`: the index of the record named
     * `name`, or not found exactly when no record has that name.
     */
    method Search(name: Name) returns (found: bool, mid: int)
      requires Valid()
      ensures found ==> 0 <= mid < numResults && Files[mid].filename == name && mid == Position(Table, name)
      ensures !found <==> name !in NamesOf(Table)
    {
      var low, high := 0, numResults - 1;
      mid := 0;
      while low <= high
        invariant 0 <= low <= high + 1 <= numResults
        invariant forall i :: 0 <= i < low ==> Less(Table[i].name, name)
        invariant forall i :: high < i < numResults ==> Less(name, Table[i].name)
      {
        mid := (low + high) / 2;
        var dir := Strcmp(results[mid].filename, name);
        if dir > 0 {
          StrcmpAntisymmetric(results[mid].filename, name);
          BelowFrom(Table, name, mid);
          high := mid - 1;
        } else if dir < 0 {
          AboveUpTo(Table, name, mid);
          low := mid + 1;
        } else {
          PositionOfEntry(Table, mid);
          assert NamesOf(Table)[mid] == name;
          return true, mid;
        }
      }
      found := false;
      forall k | 0 <= k < numResults ensures NamesOf(Table)[k] != name {
        assert Strcmp(name, name) == 0;
      }
    }

    /**
     * The insertion scan of `luacovI_findfile`: the first index whose name is
     * greater than `name`, or `numResults` when there is none.
     */
    method InsertionPoint(name: Name) returns (i: int)
      requires Valid()
      ensures 0 <= i <= numResults
      ensures forall k :: 0 <= k < i ==> !Less(name, Table[k].name)
      ensures i < numResults ==> Less(name, Table[i].name)
    {
      i := 0;
      while i < numResults
        invariant 0 <= i <= numResults
        invariant forall k :: 0 <= k < i ==> !Less(name, Table[k].name)
      {
        StrcmpAntisymmetric(results[i].filename, name);
        if Strcmp(results[i].filename, name) > 0 {
          break;
        }
        i := i + 1;
      }
    }

    /**
     * The shifting loop of `luacovI_findfile`: slots `i..numResults-1` move
     * up one and `me` fills slot `i`; the records themselves are untouched.
     */
    method ShiftInsert(me: FileRecord, i: int, ghost fs: seq<FileRecord>, ghost t: seq<Entry>)
      requires 0 <= i <= numResults < results.Length
      requires WellFormed(fs) && Abstracts(fs, t) && forall k :: 0 <= k < |fs| ==> fs[k].lines as object != results
      modifies results
      ensures results[..numResults + 1] == old(results[..i]) + ([me] + old(results[i..numResults]))
      ensures WellFormed(fs) && Abstracts(fs, t)
    {
      ShiftUp(i, fs, t);
      results[i] := me;
      ghost var front, back := old(results[..i]), old(results[i..numResults]);
      forall k | 0 <= k <= numResults
        ensures results[k] == (front + ([me] + back))[k]
      {
        if k < i {
          assert (front + ([me] + back))[k] == front[k];
        } else if k > i {
          assert (front + ([me] + back))[k] == back[k - i - 1];
        }
      }
      assert results[..numResults + 1] == front + ([me] + back);
    }

    /** Slots `i..numResults-1` move up one place, from the top down. */
    method ShiftUp(i: int, ghost fs: seq<FileRecord>, ghost t: seq<Entry>)
      requires 0 <= i <= numResults < results.Length
      requires WellFormed(fs) && Abstracts(fs, t) && forall k :: 0 <= k < |fs| ==> fs[k].lines as object != results
      modifies results
      ensures forall k :: 0 <= k < i ==> results[k] == old(results[k])
      ensures forall k :: i < k <= numResults ==> results[k] == old(results[k - 1])
      ensures WellFormed(fs) && Abstracts(fs, t)
    {
      var j := numResults;
      while j > i
        invariant i <= j <= numResults
        invariant forall k :: 0 <= k < j ==> results[k] == old(results[k])
        invariant forall k :: j < k <= numResults ==> results[k] == old(results[k - 1])
      {
        results[j] := results[j - 1];
        j := j - 1;
      }
    }

    /** `me` goes in at index `i` of the array and of the table, the records from `i` on moving up one. */
    method InsertAt(me: FileRecord, i: int)
      requires Valid() && numResults < maxResults && 0 <= i <= numResults
      requires me !in Repr && me.lines !in Repr && me.lines.Length == me.numLines >= InitialWords
      requires me.lines[..] == Zeros(InitialWords)
      requires Sorted(Table[..i] + ([Entry(me.filename, Zeros(InitialWords))] + Table[i..]))
      modifies this, results
      ensures Valid() && Repr == old(Repr) + {me, me.lines}
      ensures Files == old(Files)[..i] + ([me] + old(Files)[i..])
      ensures Table == old(Table)[..i] + ([Entry(me.filename, Zeros(InitialWords))] + old(Table)[i..])
      ensures results == old(results) && maxResults == old(maxResults) && previous == me
      ensures numResults == old(numResults) + 1
    {
      ghost var f0, t0 := Files, Table;
      ghost var f1 := Files[..i] + ([me] + Files[i..]);
      ghost var t1 := Table[..i] + ([Entry(me.filename, Zeros(InitialWords))] + Table[i..]);
      InsertWellFormed(f0, me, i);
      InsertAbstracts(f0, t0, me, i);
      assert f0[..i] == results[..i] && f0[i..] == results[i..numResults];
      ShiftInsert(me, i, f1, t1);
      Commit(f1, t1, {me, me.lines}, me);
    }

    /** Takes the array's first `numResults + 1` slots, already holding `fs`, as the new records. */
    method Commit(ghost fs: seq<FileRecord>, ghost t: seq<Entry>, ghost added: set<object>, cached: FileRecord)
      requires this in Repr && results in Repr && 0 <= numResults < maxResults == results.Length
      requires results[..numResults + 1] == fs
      requires forall f :: f in fs ==> f in Repr + added && f.lines in Repr + added && f.lines as object != results
      requires WellFormed(fs) && Abstracts(fs, t) && Sorted(t)
      requires cached in fs
      modifies this
      ensures Valid() && Repr == old(Repr) + added && Files == fs && Table == t
      ensures results == old(results) && maxResults == old(maxResults) && previous == cached
      ensures numResults == old(numResults) + 1
    {
      numResults, Files, Table, Repr, previous := numResults + 1, fs, t, Repr + added, cached;
    }

    /**
     * The insertion half of `luacovI_findfile` once room is assured: `me`
     * goes in before the first record whose name is greater.
     */
    method InsertNew(me: FileRecord) returns (i: nat)
      requires Valid() && numResults < maxResults && me.filename !in NamesOf(Table)
      requires me !in Repr && me.lines !in Repr && me.lines.Length == me.numLines >= InitialWords
      requires me.lines[..] == Zeros(InitialWords)
      modifies this, results
      ensures Valid() && Repr == old(Repr) + {me, me.lines}
      ensures Table == Touch(old(Table), me.filename) && i == Position(old(Table), me.filename)
      ensures Files == old(Files)[..i] + ([me] + old(Files)[i..])
      ensures results == old(results) && maxResults == old(maxResults) && previous == me
      ensures numResults == old(numResults) + 1
    {
      var name := me.filename;
      i := InsertionPoint(name);
      forall k | 0 <= k < i ensures Less(Table[k].name, name) {
        assert NamesOf(Table)[k] != name;
        LessTotal(Table[k].name, name);
      }
      if i < numResults {
        LessTotal(Table[i].name, name);
      }
      PositionIs(Table, name, i);
      TouchInserts(Table, name);
      TouchSorted(Table, name);
      InsertAt(me, i);
    }

    /** The capacity check of `luacovI_findfile`: a full array grows by 64 slots. */
    method EnsureRoom()
      requires Valid()
      modifies this
      ensures Valid() && Repr == old(Repr) + {results}
      ensures results == old(results) || fresh(results)
      ensures Files == old(Files) && Table == old(Table) && previous == old(previous) && numResults == old(numResults)
      ensures maxResults == if old(numResults) == old(maxResults) then old(maxResults) + ResultsGrowth else old(maxResults)
      ensures numResults < maxResults
    {
      if maxResults == numResults {
        ResizeResults();
      }
    }

    /** The cache update of `luacovI_findfile`: `s_previousNode` becomes `f`. */
    method Remember(f: FileRecord)
      requires Valid() && f in Files
      modifies this
      ensures Valid() && previous == f
      ensures Repr == old(Repr) && Files == old(Files) && Table == old(Table)
      ensures results == old(results) && numResults == old(numResults) && maxResults == old(maxResults)
    {
      previous := f;
    }

    /** The cache hit of `luacovI_findfile`: the remembered record, found without searching. */
    method CachedRecord(name: Name) returns (f: FileRecord, ghost index: nat)
      requires Valid() && previous != null && previous.filename == name
      ensures f == previous && index < |Files| && Files[index] == f && index == Position(Table, name)
      ensures name in NamesOf(Table) && Touch(Table, name) == Table && {results, f, f.lines} <= Repr
    {
      f := previous;
      ghost var k :| 0 <= k < |Files| && Files[k] == f;
      PositionOfEntry(Table, k);
      assert NamesOf(Table)[k] == name;
      TouchPresent(Table, name);
      index := k;
    }

    /** A name the binary search found at `mid`: its record, now remembered. */
    method SearchHit(name: Name, mid: int) returns (f: FileRecord)
      requires Valid() && 0 <= mid < |Files| && Files[mid].filename == name && mid == Position(Table, name)
      modifies this
      ensures Repr == old(Repr) && Files == old(Files) && Table == old(Table)
      ensures Valid() && previous == f && f == Files[mid] && name in NamesOf(Table) && Touch(Table, name) == Table
      ensures {results, f, f.lines} <= Repr
      ensures results == old(results) && numResults == old(numResults) && maxResults == old(maxResults)
    {
      assert |Table| == |Files| && Table[mid].name == name;
      assert NamesOf(Table)[mid] == name;
      TouchPresent(Table, name);
      f := results[mid];
      Remember(f);
    }

    /** A missing name: grow the array when full, then insert a fresh record with no lines. */
    method Miss(name: Name) returns (f: FileRecord, ghost index: nat)
      requires Valid() && |name| < FilenameCapacity && name !in NamesOf(Table)
      modifies this, results
      ensures Valid() && Repr == old(Repr) + {results, f, f.lines}
      ensures results == old(results) || fresh(results)
      ensures Table == Touch(old(Table), name)
      ensures index == Position(old(Table), name) && index < |Files| && Files[index] == f
      ensures f.filename == name && previous == f && fresh(f) && fresh(f.lines)
      ensures Files == old(Files)[..index] + ([f] + old(Files)[index..])
      ensures numResults == old(numResults) + 1
      ensures maxResults == if old(numResults) == old(maxResults) then old(maxResults) + ResultsGrowth else old(maxResults)
    {
      EnsureRoom();
      f, index := AddRecord(name);
    }

    /** A fresh record named `name` with 32 zero words, inserted in order where there is room. */
    method AddRecord(name: Name) returns (f: FileRecord, ghost index: nat)
      requires Valid() && numResults < maxResults && name !in NamesOf(Table)
      modifies this, results
      ensures Valid() && Repr == old(Repr) + {f, f.lines}
      ensures Table == Touch(old(Table), name)
      ensures index == Position(old(Table), name) && index < |Files| && Files[index] == f
      ensures f.filename == name && previous == f && fresh(f) && fresh(f.lines)
      ensures Files == old(Files)[..index] + ([f] + old(Files)[index..])
      ensures results == old(results) && numResults == old(numResults) + 1 && maxResults == old(maxResults)
    {
      f := new FileRecord(name);
      index := InsertNew(f);
    }

    /**
     * `luacovI_findfile`: the record named `name`, inserted with no lines
     * where it was missing, so the table becomes `Touch(Table, name)`; the
     * cache then holds the record, and a cache hit returns it unsearched.
     */
    method FindFile(name: Name) returns (f: FileRecord, ghost index: nat)
      requires Valid() && |name| < FilenameCapacity
      modifies this, results
      ensures Valid() && Repr == old(Repr) + {results, f, f.lines}
      ensures results == old(results) || fresh(results)
      ensures Table == Touch(old(Table), name)
      ensures index == Position(old(Table), name) && index < |Files| && Files[index] == f
      ensures f.filename == name && previous == f
      ensures old(previous) != null && old(previous).filename == name ==> f == old(previous)
      ensures name in NamesOf(old(Table)) ==>
        Files == old(Files) && results == old(results) && numResults == old(numResults) && maxResults == old(maxResults)
      ensures name !in NamesOf(old(Table)) ==>
        fresh(f) && fresh(f.lines) && Files == old(Files)[..index] + ([f] + old(Files)[index..]) &&
        numResults == old(numResults) + 1 &&
        maxResults == if old(numResults) == old(maxResults) then old(maxResults) + ResultsGrowth else old(maxResults)
    {
      if previous != null && Strcmp(previous.filename, name) == 0 {
        f, index := CachedRecord(name);
        return;
      }
      var found, mid := Search(name);
      if found {
        f := SearchHit(name, mid);
        return f, mid;
      }
      f, index := Miss(name);
    }

    /** `luacovI_resizelinebuf` on record `index`: its entry gains zero words and no line. */
    method ResizeRecord(f: FileRecord, ghost index: nat, minLines: int)
      requires Valid() && index < |Files| && Files[index] == f && minLines > 0
      modifies this, f
      ensures Valid() && Files == old(Files) && fresh(f.lines)
      ensures f.numLines == GrownSize(old(f.numLines), minLines)
      ensures Table == old(Table)[index := Entry(f.filename, old(Table)[index].words + Zeros(f.numLines - old(f.numLines)))]
      ensures Repr == old(Repr) + {f.lines}
      ensures results == old(results) && numResults == old(numResults) && maxResults == old(maxResults)
      ensures previous == old(previous)
    {
      ghost var t0 := Table;
      f.ResizeLineBuf(minLines);
      forall k | 0 <= k < |Files| && k != index
        ensures Files[k] != f && Files[k].lines != f.lines && Files[k].lines.Length == Files[k].numLines >= InitialWords
        ensures t0[k] == Entry(Files[k].filename, Files[k].lines[..])
      {
        assert old(Files[k].lines) in old(Repr);
      }
      SortedUpdate(Table, index, Entry(f.filename, f.lines[..]));
      Table := Table[index := Entry(f.filename, f.lines[..])];
      Repr := Repr + {f.lines};
    }

    /**
     * The `resizelinebuf` step of the hook: record `index`'s bitfield grows
     * when word `n >> 5` is not below its last word, and keeps its lines.
     */
    method GrowLines(f: FileRecord, ghost index: nat, n: nat)
      requires Valid() && index < |Files| && Files[index] == f
      modifies this, f
      ensures Valid() && Files == old(Files) && f.lines.Length > n / 32 + 1
      ensures Table == old(Table)[index := Entry(f.filename, Grow(old(Table)[index].words, n))]
      ensures Repr == old(Repr) + {f.lines} && (f.lines == old(f.lines) || fresh(f.lines))
      ensures results == old(results) && numResults == old(numResults) && maxResults == old(maxResults)
      ensures previous == old(previous)
    {
      var requiredBufferLen := n / 32 + 1;
      if requiredBufferLen >= f.numLines {
        ResizeRecord(f, index, requiredBufferLen);
      }
    }

    /** The `setbit` step of the hook: line `n` is recorded in record `index`'s bitfield. */
    method MarkLine(f: FileRecord, ghost index: nat, n: nat)
      requires Valid() && index < |Files| && Files[index] == f && n / 32 < f.lines.Length
      modifies this, f.lines
      ensures Valid() && Files == old(Files) && Repr == old(Repr)
      ensures Table == old(Table)[index := Entry(f.filename, SetLine(old(Table)[index].words, n))]
      ensures results == old(results) && numResults == old(numResults) && maxResults == old(maxResults)
      ensures previous == old(previous)
    {
      SetBit(f.lines, n);
      SortedUpdate(Table, index, Entry(f.filename, f.lines[..]));
      Table := Table[index := Entry(f.filename, f.lines[..])];
      forall k | 0 <= k < |Files| && k != index ensures Files[k].lines[..] == old(Files[k].lines[..]) {
        assert Files[k].lines != f.lines;
      }
    }

    /**
     * The line-recording body of `luacovI_hook`: on a line event from a
     * source starting with `@`, line `currentline` of the file named by the
     * rest of the source is recorded, so the table becomes `Record`.
     */
    method Hook(lineEvent: bool, source: Name, currentline: nat)
      requires Valid()
      requires IsFileSource(source) ==> |source| - 1 < FilenameCapacity
      modifies this, Repr
      ensures Valid() && old(Repr) <= Repr
      ensures Table == if lineEvent && IsFileSource(source) then Record(old(Table), source[1..], currentline) else old(Table)
      ensures lineEvent && IsFileSource(source) ==>
        previous != null && previous.filename == source[1..] &&
        (results == old(results) || fresh(results)) &&
        numResults == old(numResults) + (if source[1..] in NamesOf(old(Table)) then 0 else 1) &&
        maxResults == if source[1..] in NamesOf(old(Table)) || old(numResults) < old(maxResults)
          then old(maxResults) else old(maxResults) + ResultsGrowth
      ensures !(lineEvent && IsFileSource(source)) ==>
        previous == old(previous) && results == old(results) && numResults == old(numResults) &&
        maxResults == old(maxResults) && Repr == old(Repr)
    {
      if lineEvent && IsFileSource(source) {
        RecordSteps(Table, source[1..], currentline);
        var f, index := FindFile(source[1..]);
        GrowLines(f, index, currentline);
        MarkLine(f, index, currentline);
      }
    }

    /**
     * `luacovI_reset`: no records, 64 empty slots and an empty cache.
     */
    method Reset()
      modifies this
      ensures Valid() && fresh(Repr - {this})
      ensures numResults == 0 && maxResults == ResultsGrowth && previous == null && Table == []
      ensures forall i :: 0 <= i < results.Length ==> results[i] == null
    {
      numResults := 0;
      maxResults := ResultsGrowth;
      var res := new FileRecord?[maxResults];
      previous := null;
      var i := 0;
      while i < maxResults
        invariant 0 <= i <= maxResults == res.Length
        invariant forall k :: 0 <= k < i ==> res[k] == null
        modifies res
      {
        res[i] := null;
        i := i + 1;
      }
      results := res;
      Files, Table, Repr := [], [], {this, res};
    }

    /**
     * The bit loops of `luacov_dump`: for each record in table order, its
     * name and the numbers of its set bits in increasing order, which are
     * exactly its recorded lines; the names come out in ascending order.
     */
    method Dump() returns (out: seq<FileDump>)
      requires Valid()
      ensures |out| == |Table|
      ensures forall i :: 0 <= i < |out| ==> out[i].name == Table[i].name && StrictlyIncreasing(out[i].lines)
      ensures forall i, m :: 0 <= i < |out| ==> (m in out[i].lines <==> m in HitsOf(Table[i].words))
      ensures forall i, j :: 0 <= i < j < |out| ==> Less(out[i].name, out[j].name)
    {
      out := [];
      var f := 0;
      while f < numResults
        invariant 0 <= f <= numResults && |out| == f
        invariant forall i :: 0 <= i < f ==> out[i].name == Table[i].name && StrictlyIncreasing(out[i].lines)
        invariant forall i, m :: 0 <= i < f ==> (m in out[i].lines <==> m in HitsOf(Table[i].words))
      {
        var file := results[f];
        assert file == Files[f];
        var nums := DumpLines(file.lines);
        out := out + [FileDump(file.filename, nums)];
        f := f + 1;
      }
    }

    /** `luacovI_countmemusage`: the bytes of the results array, the records and their bitfields. */
    method CountMemUsage() returns (bytes: int)
      requires Valid()
      ensures bytes == MemUsage(maxResults, WordsOf(Files))
    {
      ghost var words := WordsOf(Files);
      assert forall k :: 0 <= k < numResults ==> results[k] != null && results[k].numLines == words[k] by {
        assert results[..numResults] == Files;
      }
      var recordBytes := SumRecordBytes(results, numResults, words);
      bytes := maxResults * PointerBytes + recordBytes;
    }
  }
}
