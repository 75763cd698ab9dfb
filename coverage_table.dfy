/**
 * The values behind the coverage recorder of luacov/luacov.cpp: file names
 * ordered as `strcmp` orders them, the per-file bitfield of executed lines,
 * and the table of (file name, recorded lines) that the recorder keeps
 * sorted by name.
 */
module CoverageTable {

  // ---------------------------------------------------------------------------
  // File names and strcmp

  /** A byte of a C string before its terminating NUL, read as unsigned char. */
  type CChar = b: int | 1 <= b < 256 witness 1

  type Name = seq<CChar>

  /** The sign of `strcmp(a, b)`: the first differing byte decides, and a proper prefix sorts first. */
  function Strcmp(a: Name, b: Name): (r: int)
    ensures -1 <= r <= 1
    ensures r == 0 <==> a == b
  {
    if a == [] && b == [] then 0
    else if a == [] then -1
    else if b == [] then 1
    else if a[0] < b[0] then -1
    else if a[0] > b[0] then 1
    else
      assert a == [a[0]] + a[1..] && b == [b[0]] + b[1..];
      Strcmp(a[1..], b[1..])
  }

  predicate Less(a: Name, b: Name)
  {
    Strcmp(a, b) < 0
  }

  lemma {:induction false} StrcmpAntisymmetric(a: Name, b: Name)
    ensures Strcmp(b, a) == -Strcmp(a, b)
  {
    if a != [] && b != [] && a[0] == b[0] {
      StrcmpAntisymmetric(a[1..], b[1..]);
    }
  }

  lemma {:induction false} LessTransitive(a: Name, b: Name, c: Name)
    requires Less(a, b) && Less(b, c)
    ensures Less(a, c)
  {
    if a != [] && b != [] && c != [] && a[0] == b[0] && b[0] == c[0] {
      LessTransitive(a[1..], b[1..], c[1..]);
    }
  }

  /** Two different names are always ordered one way or the other. */
  lemma LessTotal(a: Name, b: Name)
    ensures a == b || Less(a, b) || Less(b, a)
    ensures !(Less(a, b) && Less(b, a))
  {
    StrcmpAntisymmetric(a, b);
  }

  // ---------------------------------------------------------------------------
  // The bitfield of executed lines

  function Bit(b: nat): bv32
    requires b < 32
  {
    (1 as bv32) << b
  }

  /** Bit `n & 31` of word `n >> 5`: line `n` has been executed. */
  predicate BitSet(words: seq<bv32>, n: nat)
  {
    n / 32 < |words| && words[n / 32] & Bit(n % 32) != 0
  }

  /** The line numbers whose bits are set. */
  function HitsOf(words: seq<bv32>): set<nat>
  {
    set n: nat | n < 32 * |words| && BitSet(words, n)
  }

  lemma OrSameBit(x: bv32, b: nat)
    requires b < 32
    ensures (x | Bit(b)) & Bit(b) != 0
  {
  }

  lemma BitShift(b: nat)
    requires b < 32
    ensures Bit(b) == (1 as bv32) << (b as bv32) && (b as bv32) as int == b && b as bv32 < 32
  {
  }

  lemma ShiftsDisjoint(x: bv32, y: bv32)
    requires x < 32 && y < 32 && x != y
    ensures ((1 as bv32) << x) & ((1 as bv32) << y) == 0
  {
  }

  lemma DistinctBits(b: nat, c: nat)
    requires b < 32 && c < 32 && b != c
    ensures Bit(b) & Bit(c) == 0
  {
    BitShift(b);
    BitShift(c);
    ShiftsDisjoint(b as bv32, c as bv32);
  }

  lemma OrOtherBit(x: bv32, b: nat, c: nat)
    requires b < 32 && c < 32 && b != c
    ensures (x | Bit(b)) & Bit(c) == x & Bit(c)
  {
    DistinctBits(b, c);
    var y, z := Bit(b), Bit(c);
    assert (x | y) & z == (x & z) | (y & z);
  }

  lemma SameWord(m: nat, n: nat)
    requires m / 32 == n / 32
    ensures m == n <==> m % 32 == n % 32
  {
  }

  /** `setbit`: OR bit `n & 31` into word `n >> 5`. */
  function SetLine(words: seq<bv32>, n: nat): (r: seq<bv32>)
    requires n / 32 < |words|
    ensures |r| == |words|
  {
    words[n / 32 := words[n / 32] | Bit(n % 32)]
  }

  lemma SetBitAt(words: seq<bv32>, n: nat, m: nat)
    requires n / 32 < |words|
    ensures BitSet(SetLine(words, n), m) <==> BitSet(words, m) || m == n
  {
    if m / 32 == n / 32 {
      SameWord(m, n);
      if m == n {
        OrSameBit(words[n / 32], n % 32);
      } else {
        OrOtherBit(words[n / 32], n % 32, m % 32);
      }
    }
  }

  /** ORing bit `n & 31` into word `n >> 5` records line `n` and nothing else. */
  lemma SetBitHits(words: seq<bv32>, n: nat)
    requires n / 32 < |words|
    ensures HitsOf(SetLine(words, n)) == HitsOf(words) + {n}
  {
    var after := SetLine(words, n);
    forall m: nat ensures m in HitsOf(after) <==> m in HitsOf(words) + {n} {
      SetBitAt(words, n, m);
    }
  }

  function Zeros(k: nat): (r: seq<bv32>)
    ensures |r| == k && forall i :: 0 <= i < k ==> r[i] == 0
  {
    seq(k, i => 0)
  }

  /** Words added as zero record no line. */
  lemma ZeroWordsAddNoHits(words: seq<bv32>, k: nat)
    ensures HitsOf(words + Zeros(k)) == HitsOf(words)
  {
    var grown := words + Zeros(k);
    forall n: nat ensures BitSet(grown, n) <==> BitSet(words, n) {
      if n / 32 < |words| {
        assert grown[n / 32] == words[n / 32];
      } else if n / 32 < |grown| {
        assert grown[n / 32] == 0;
      }
    }
  }

  /** A new record's 32 zero words hold no line. */
  lemma ZeroWordsNoHits(k: nat)
    ensures HitsOf(Zeros(k)) == {}
  {
    ZeroWordsAddNoHits([], k);
    assert [] + Zeros(k) == Zeros(k);
  }

  // ---------------------------------------------------------------------------
  // The table of files

  /** A record's file name and its bitfield. */
  datatype Entry = Entry(name: Name, words: seq<bv32>)

  function NamesOf(t: seq<Entry>): (r: seq<Name>)
    ensures |r| == |t| && forall i :: 0 <= i < |t| ==> r[i] == t[i].name
  {
    seq(|t|, i requires 0 <= i < |t| => t[i].name)
  }

  /** Names strictly ascending in `strcmp` order: sorted and without duplicates. */
  predicate Sorted(t: seq<Entry>)
  {
    forall i, j :: 0 <= i < j < |t| ==> Less(t[i].name, t[j].name)
  }

  /** Replacing an entry's bitfield, keeping its name, keeps the table sorted. */
  lemma SortedUpdate(t: seq<Entry>, p: nat, e: Entry)
    requires Sorted(t) && p < |t| && e.name == t[p].name
    ensures Sorted(t[p := e])
  {
    var u := t[p := e];
    forall i, j | 0 <= i < j < |u| ensures Less(u[i].name, u[j].name) {
      assert u[i].name == t[i].name && u[j].name == t[j].name;
    }
  }

  /** The index of the first entry whose name is not less than `name`. */
  function Position(t: seq<Entry>, name: Name): (p: nat)
    ensures p <= |t|
    ensures forall i :: 0 <= i < p ==> Less(t[i].name, name)
    ensures p < |t| ==> !Less(t[p].name, name)
  {
    if t == [] || !Less(t[0].name, name) then 0 else 1 + Position(t[1..], name)
  }

  /** In a sorted table every entry from the position on is not less than `name`. */
  lemma PositionSorted(t: seq<Entry>, name: Name)
    requires Sorted(t)
    ensures forall i :: Position(t, name) <= i < |t| ==> !Less(t[i].name, name)
    ensures name in NamesOf(t) <==> Position(t, name) < |t| && t[Position(t, name)].name == name
  {
    var p := Position(t, name);
    forall i | p <= i < |t| ensures !Less(t[i].name, name) {
      if i > p && Less(t[i].name, name) {
        LessTransitive(t[p].name, t[i].name, name);
      }
    }
    if name in NamesOf(t) {
      var k :| 0 <= k < |t| && t[k].name == name;
    }
  }

  /** Words in a new record's bitfield. */
  const InitialWords := 32

  /** `findfile`: the table with `name` in it, inserted with 32 zero words where it was missing. */
  function Touch(t: seq<Entry>, name: Name): (r: seq<Entry>)
  {
    var p := Position(t, name);
    if p < |t| && t[p].name == name then t else t[..p] + [Entry(name, Zeros(InitialWords))] + t[p..]
  }

  /** The recorded lines of `name`, none when it has no entry. */
  function Hits(t: seq<Entry>, name: Name): set<nat>
  {
    if t == [] then {} else if t[0].name == name then HitsOf(t[0].words) else Hits(t[1..], name)
  }

  /** The hook's `resizelinebuf` step: zero words appended when word `n >> 5` is not below the last one. */
  function Grow(words: seq<bv32>, n: nat): (r: seq<bv32>)
    ensures |r| > n / 32 + 1
  {
    var need := n / 32 + 1;
    if need >= |words| then words + Zeros(GrownSize(|words|, need) - |words|) else words
  }

  /** The line hook: line `n` recorded for `name`, whose entry is added first when missing. */
  function Record(t: seq<Entry>, name: Name, n: nat): seq<Entry>
  {
    var p := Position(t, name);
    var u := Touch(t, name);
    u[p := Entry(name, SetLine(Grow(u[p].words, n), n))]
  }

  // ---------------------------------------------------------------------------
  // Properties of the table operations

  /** Growing the bitfield gains and loses no line. */
  lemma GrowHits(words: seq<bv32>, n: nat)
    ensures HitsOf(Grow(words, n)) == HitsOf(words)
  {
    var need := n / 32 + 1;
    if need >= |words| {
      ZeroWordsAddNoHits(words, GrownSize(|words|, need) - |words|);
    }
  }

  lemma {:induction false} HitsAbsent(t: seq<Entry>, y: Name)
    requires y !in NamesOf(t)
    ensures Hits(t, y) == {}
  {
    if t != [] {
      assert NamesOf(t[1..]) == NamesOf(t)[1..];
      HitsAbsent(t[1..], y);
    }
  }

  lemma {:induction false} HitsAppend(a: seq<Entry>, b: seq<Entry>, y: Name)
    ensures Hits(a + b, y) == if y in NamesOf(a) then Hits(a, y) else Hits(b, y)
  {
    if a == [] {
      assert a + b == b;
    } else {
      assert (a + b)[1..] == a[1..] + b;
      assert NamesOf(a) == [a[0].name] + NamesOf(a[1..]);
      HitsAppend(a[1..], b, y);
    }
  }

  /** In a sorted table the lines of an entry's name are that entry's lines. */
  lemma {:induction false} HitsAt(t: seq<Entry>, i: nat)
    requires Sorted(t) && i < |t|
    ensures Hits(t, t[i].name) == HitsOf(t[i].words)
  {
    if i > 0 {
      assert Less(t[0].name, t[i].name);
      HitsAt(t[1..], i - 1);
    }
  }

  /** Replacing an entry's lines leaves every other name's lines alone. */
  lemma {:induction false} HitsUpdate(t: seq<Entry>, p: nat, e: Entry, y: Name)
    requires p < |t| && e.name == t[p].name && y != e.name
    ensures Hits(t[p := e], y) == Hits(t, y)
  {
    if p > 0 {
      assert t[p := e][1..] == t[1..][p - 1 := e];
      HitsUpdate(t[1..], p - 1, e, y);
    }
  }

  /** After `Touch` the entry at the position holds `name`. */
  lemma TouchFinds(t: seq<Entry>, name: Name)
    ensures Position(t, name) < |Touch(t, name)| && Touch(t, name)[Position(t, name)].name == name
    ensures name in NamesOf(Touch(t, name))
  {
    var p := Position(t, name);
    assert Touch(t, name)[p].name == name;
  }

  /** A name already in a sorted table leaves it unchanged. */
  lemma TouchPresent(t: seq<Entry>, name: Name)
    requires Sorted(t) && name in NamesOf(t)
    ensures Touch(t, name) == t
  {
    PositionSorted(t, name);
  }

  /** An entry that sorts between the first `p` entries and the rest keeps the table sorted. */
  lemma InsertSorted(t: seq<Entry>, p: nat, e: Entry)
    requires Sorted(t) && p <= |t|
    requires forall i :: 0 <= i < p ==> Less(t[i].name, e.name)
    requires forall i :: p <= i < |t| ==> Less(e.name, t[i].name)
    ensures Sorted(t[..p] + ([e] + t[p..]))
  {
    var u := t[..p] + ([e] + t[p..]);
    forall i, j | 0 <= i < j < |u| ensures Less(u[i].name, u[j].name) {
      var i' := if i < p then i else i - 1;
      var j' := if j < p then j else j - 1;
      if i != p && j != p {
        assert u[i] == t[i'] && u[j] == t[j'];
      } else if i == p {
        assert u[j] == t[j'];
      } else {
        assert u[i] == t[i'];
      }
    }
  }

  /** `Touch` keeps the table sorted. */
  lemma TouchSorted(t: seq<Entry>, name: Name)
    requires Sorted(t)
    ensures Sorted(Touch(t, name))
  {
    var p := Position(t, name);
    PositionSorted(t, name);
    if name !in NamesOf(t) {
      TouchInserts(t, name);
      forall i | p <= i < |t| ensures Less(name, t[i].name) {
        LessTotal(t[i].name, name);
        assert NamesOf(t)[i] == t[i].name;
      }
      InsertSorted(t, p, Entry(name, Zeros(InitialWords)));
    } else {
      TouchPresent(t, name);
    }
  }

  /** Where `name` is missing, `Touch` inserts it at the position. */
  lemma TouchInserts(t: seq<Entry>, name: Name)
    requires Sorted(t) && name !in NamesOf(t)
    ensures var p := Position(t, name);
      Touch(t, name) == t[..p] + ([Entry(name, Zeros(InitialWords))] + t[p..])
  {
    PositionSorted(t, name);
  }

  lemma NamesAppend(a: seq<Entry>, b: seq<Entry>)
    ensures NamesOf(a + b) == NamesOf(a) + NamesOf(b)
  {
  }

  lemma InsertedAt(t: seq<Entry>, p: nat, e: Entry, k: nat)
    requires p <= |t| && k < |t|
    ensures var u := t[..p] + ([e] + t[p..]);
      |u| == |t| + 1 && u[p] == e && u[if k < p then k else k + 1] == t[k]
  {
  }

  lemma NamesInsertKeeps(t: seq<Entry>, p: nat, e: Entry, k: nat)
    requires p <= |t| && k < |t|
    ensures NamesOf(t)[k] in NamesOf(t[..p] + ([e] + t[p..]))
  {
    InsertedAt(t, p, e, k);
    var u := t[..p] + ([e] + t[p..]);
    assert NamesOf(u)[k + (if k < p then 0 else 1)] == NamesOf(t)[k];
  }

  lemma NamesInsertOnly(t: seq<Entry>, p: nat, e: Entry, k: nat)
    requires p <= |t| && k <= |t| && k != p
    ensures NamesOf(t[..p] + ([e] + t[p..]))[k] in NamesOf(t)
  {
    var j := if k < p then k else k - 1;
    InsertedAt(t, p, e, j);
    assert NamesOf(t)[j] == t[j].name;
  }

  lemma NamesInsert(t: seq<Entry>, p: nat, e: Entry, y: Name)
    requires p <= |t|
    ensures y in NamesOf(t[..p] + ([e] + t[p..])) <==> y in NamesOf(t) || y == e.name
  {
    var u := t[..p] + ([e] + t[p..]);
    assert u[p] == e;
    assert NamesOf(u)[p] == e.name;
    if y in NamesOf(t) {
      var k :| 0 <= k < |t| && NamesOf(t)[k] == y;
      NamesInsertKeeps(t, p, e, k);
    }
    if y in NamesOf(u) && y != e.name {
      var k :| 0 <= k < |u| && NamesOf(u)[k] == y;
      NamesInsertOnly(t, p, e, k);
    }
  }

  /** `Touch` adds `name` and no other name. */
  lemma TouchNames(t: seq<Entry>, name: Name, y: Name)
    requires Sorted(t)
    ensures y in NamesOf(Touch(t, name)) <==> y in NamesOf(t) || y == name
  {
    if name in NamesOf(t) {
      TouchPresent(t, name);
    } else {
      TouchInserts(t, name);
      NamesInsert(t, Position(t, name), Entry(name, Zeros(InitialWords)), y);
    }
  }

  lemma HitsSuffix(t: seq<Entry>, p: nat, y: Name)
    requires p <= |t| && y !in NamesOf(t[..p])
    ensures Hits(t[p..], y) == Hits(t, y)
  {
    assert t == t[..p] + t[p..];
    HitsAppend(t[..p], t[p..], y);
  }

  /** Inserting a fresh, empty entry at `p` changes no name's lines. */
  lemma InsertKeepsHits(t: seq<Entry>, p: nat, e: Entry, y: Name)
    requires p <= |t| && e.name !in NamesOf(t) && HitsOf(e.words) == {}
    ensures Hits(t[..p] + ([e] + t[p..]), y) == Hits(t, y)
  {
    var rest := [e] + t[p..];
    HitsAppend(t[..p], rest, y);
    assert t == t[..p] + t[p..];
    HitsAppend(t[..p], t[p..], y);
    if y !in NamesOf(t[..p]) {
      assert rest[1..] == t[p..];
      if y == e.name {
        HitsAbsent(t, y);
      }
    }
  }

  /** `Touch` changes no name's lines; a new name starts with none. */
  lemma TouchKeepsHits(t: seq<Entry>, name: Name, y: Name)
    requires Sorted(t)
    ensures Hits(Touch(t, name), y) == Hits(t, y)
  {
    if name in NamesOf(t) {
      TouchPresent(t, name);
    } else {
      TouchInserts(t, name);
      ZeroWordsNoHits(InitialWords);
      InsertKeepsHits(t, Position(t, name), Entry(name, Zeros(InitialWords)), y);
    }
  }

  /** Touching twice is touching once. */
  lemma TouchIdempotent(t: seq<Entry>, name: Name)
    ensures Touch(Touch(t, name), name) == Touch(t, name)
  {
    var p := Position(t, name);
    var u := Touch(t, name);
    TouchFinds(t, name);
    PositionPrefix(u, name, p);
  }

  /** The position is `p` when the first `p` names are less and the one at `p` is `name`. */
  lemma {:induction false} PositionPrefix(t: seq<Entry>, name: Name, p: nat)
    requires p < |t| && t[p].name == name && forall i :: 0 <= i < p ==> Less(t[i].name, name)
    ensures Position(t, name) == p
  {
    if p > 0 {
      PositionPrefix(t[1..], name, p - 1);
    } else {
      assert Strcmp(name, name) == 0;
    }
  }

  /** In a sorted table each entry's position is its index. */
  lemma PositionOfEntry(t: seq<Entry>, k: nat)
    requires Sorted(t) && k < |t|
    ensures Position(t, t[k].name) == k
  {
    PositionPrefix(t, t[k].name, k);
  }

  /** The position is the first index whose name is not less than `name`. */
  lemma {:induction false} PositionIs(t: seq<Entry>, name: Name, p: nat)
    requires p <= |t| && forall i :: 0 <= i < p ==> Less(t[i].name, name)
    requires p < |t| ==> !Less(t[p].name, name)
    ensures Position(t, name) == p
  {
    if p > 0 {
      PositionIs(t[1..], name, p - 1);
    }
  }

  /** A name below entry `k` of a sorted table is below every later entry. */
  lemma BelowFrom(t: seq<Entry>, name: Name, k: nat)
    requires Sorted(t) && k < |t| && Less(name, t[k].name)
    ensures forall i :: k <= i < |t| ==> Less(name, t[i].name)
  {
    forall i | k < i < |t| ensures Less(name, t[i].name) {
      LessTransitive(name, t[k].name, t[i].name);
    }
  }

  /** A name above entry `k` of a sorted table is above every earlier entry. */
  lemma AboveUpTo(t: seq<Entry>, name: Name, k: nat)
    requires Sorted(t) && k < |t| && Less(t[k].name, name)
    ensures forall i :: 0 <= i <= k ==> Less(t[i].name, name)
  {
    forall i | 0 <= i < k ensures Less(t[i].name, name) {
      LessTransitive(t[i].name, t[k].name, name);
    }
  }

  /** Recording keeps the table sorted and gives it the names `Touch` gives it. */
  lemma RecordSorted(t: seq<Entry>, name: Name, n: nat)
    requires Sorted(t)
    ensures Sorted(Record(t, name, n))
    ensures NamesOf(Record(t, name, n)) == NamesOf(Touch(t, name))
  {
    TouchSorted(t, name);
    TouchFinds(t, name);
  }

  /** `Record` as the hook performs it: find or insert, then grow the bitfield, then set the bit. */
  lemma RecordSteps(t: seq<Entry>, name: Name, n: nat)
    ensures Position(t, name) < |Touch(t, name)|
    ensures var p, u := Position(t, name), Touch(t, name);
      var v := u[p := Entry(name, Grow(u[p].words, n))];
      Record(t, name, n) == v[p := Entry(name, SetLine(v[p].words, n))]
  {
    TouchFinds(t, name);
  }

  /** After recording line `n`, the file's bitfield has more than `n / 32 + 1` words. */
  lemma RecordFits(t: seq<Entry>, name: Name, n: nat)
    ensures var p := Position(t, name);
      p < |Record(t, name, n)| && Record(t, name, n)[p].name == name &&
      |Record(t, name, n)[p].words| > n / 32 + 1
  {
    TouchFinds(t, name);
  }

  /**
   * Recording line `n` for `name` adds `n` to that file's lines and leaves
   * every other file's lines as they were.
   */
  lemma RecordHits(t: seq<Entry>, name: Name, n: nat, y: Name)
    requires Sorted(t)
    ensures Hits(Record(t, name, n), y) == if y == name then Hits(t, name) + {n} else Hits(t, y)
  {
    var p := Position(t, name);
    var u := Touch(t, name);
    TouchFinds(t, name);
    TouchSorted(t, name);
    TouchKeepsHits(t, name, y);
    TouchKeepsHits(t, name, name);
    TouchNames(t, name, y);
    RecordSorted(t, name, n);
    if y == name {
      HitsAt(u, p);
      HitsAt(Record(t, name, n), p);
      GrowHits(u[p].words, n);
      SetBitHits(Grow(u[p].words, n), n);
    } else {
      HitsUpdate(u, p, Entry(name, SetLine(Grow(u[p].words, n), n)), y);
    }
  }

  // ---------------------------------------------------------------------------
  // Sizes

  /** `resizelinebuf`: twice the old size, or twice `minLines` when that is not more than `minLines`. */
  function GrownSize(size: int, minLines: int): int
  {
    if size * 2 <= minLines then minLines * 2 else size * 2
  }

  /** The grown bitfield has room for `minLines` words and at least doubles. */
  lemma GrownSizeBounds(size: int, minLines: int)
    requires size >= 0 && minLines > 0
    ensures GrownSize(size, minLines) > minLines && GrownSize(size, minLines) >= 2 * size
  {
  }

  /** Sizes on an LP64 target: a pointer, an int, and `luacov_File` (256 + 4 bytes, padded, plus a pointer). */
  const PointerBytes := 8
  const IntBytes := 4
  const FileRecordBytes := 272

  function RecordBytes(words: int): int
  {
    FileRecordBytes + IntBytes * words
  }

  function RecordsBytes(words: seq<int>): int
  {
    if words == [] then 0 else RecordsBytes(words[..|words| - 1]) + RecordBytes(words[|words| - 1])
  }

  /** `countmemusage`: the results array plus each record and its bitfield. */
  function MemUsage(maxResults: int, words: seq<int>): int
  {
    maxResults * PointerBytes + RecordsBytes(words)
  }

  /** Every record costs at least its struct and 32 words. */
  lemma {:induction false} MemUsageLowerBound(maxResults: int, words: seq<int>)
    requires forall i :: 0 <= i < |words| ==> words[i] >= 32
    ensures MemUsage(maxResults, words) >= maxResults * PointerBytes + |words| * (FileRecordBytes + IntBytes * 32)
  {
    if words != [] {
      MemUsageLowerBound(maxResults, words[..|words| - 1]);
    }
  }
}
