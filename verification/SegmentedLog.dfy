/** A shard's log split into fixed-size segment files by index. */
module SegmentedLog {
  import opened Basics
  import opened Model
  import opened Graph
  import opened Codec
  import opened LogCodec

  /** The segments of a directory: first index of each file, and the entries in file order. */
  type Dir = map<LogIndex, seq<LogEntry>>

  /** Where index `i` is filed, with `size` entries per segment. */
  function SegmentStart(i: LogIndex, size: u64): (r: LogIndex)
    requires size > 0
    ensures r <= i && (i == 0 <==> r == 0) && (i > 0 ==> i < r + size)
  {
    if i == 0 then 0
    else
      Quotient(i - 1, size);
      (i - 1) / size * size + 1
  }

  lemma Quotient(x: nat, d: nat)
    requires d > 0
    ensures 0 <= x / d * d <= x < x / d * d + d
  {
    assert x == x / d * d + x % d;
  }

  lemma QuotientMonotone(x: nat, y: nat, d: nat)
    requires d > 0 && x <= y
    ensures x / d * d <= y / d * d
  {
    Quotient(x, d);
    Quotient(y, d);
    if x / d > y / d {
      ScaledStep(x / d, y / d, d);
      assert false;
    }
    Scaled(x / d, y / d, d);
  }

  lemma {:induction false} ScaledStep(a: nat, b: nat, d: nat)
    requires a > b
    ensures a * d >= b * d + d
    decreases a
  {
    assert a * d == (a - 1) * d + d;
    if a > b + 1 { ScaledStep(a - 1, b, d); }
  }

  lemma Scaled(a: nat, b: nat, d: nat)
    requires a <= b
    ensures a * d <= b * d
  {
    if a < b { ScaledStep(b, a, d); }
  }

  /** Later indices are never filed in earlier segments. */
  lemma SegmentMonotone(i: LogIndex, j: LogIndex, size: u64)
    requires size > 0 && i <= j
    ensures SegmentStart(i, size) <= SegmentStart(j, size)
  {
    if i > 0 { QuotientMonotone(i - 1, j - 1, size); }
  }

  ghost predicate Nth(q: nat, size: u64, r: LogIndex) {
    r == q * size + 1
  }

  /** Zero, or one past a whole number of segments. */
  ghost predicate Starts(r: LogIndex, size: u64) {
    r == 0 || exists q: nat :: Nth(q, size, r)
  }

  lemma OneStart(q: nat, p: nat, size: u64, r: LogIndex, s: LogIndex, i: LogIndex)
    requires Nth(q, size, r) && Nth(p, size, s) && r <= i < r + size && s <= i < s + size
    ensures r == s
  {
    if q > p { ScaledStep(q, p, size); }
    if p > q { ScaledStep(p, q, size); }
  }

  /** The start of an index is the one start at or below it and less than a segment away. */
  lemma SegmentExactly(i: LogIndex, r: LogIndex, size: u64)
    requires size > 0
    ensures r == SegmentStart(i, size) <==> Starts(r, size) && if i == 0 then r == 0 else 0 < r <= i < r + size
  {
    var s := SegmentStart(i, size);
    if i > 0 {
      assert Nth((i - 1) / size, size, s);
      hide SegmentStart;
      if r > 0 && Starts(r, size) && r <= i < r + size {
        var q: nat :| Nth(q, size, r);
        OneStart(q, (i - 1) / size, size, r, s, i);
      }
    }
  }

  lemma StartIsItself(r: LogIndex, size: u64)
    requires size > 0 && Starts(r, size)
    ensures SegmentStart(r, size) == r
  {
    SegmentExactly(r, r, size);
  }

  // ----- Reading -----

  function AtLeast(es: seq<LogEntry>, i: LogIndex): seq<LogEntry> {
    if es == [] then []
    else AtLeast(es[..|es| - 1], i) + (if es[|es| - 1].index >= i then [es[|es| - 1]] else [])
  }

  function Before(es: seq<LogEntry>, i: LogIndex): seq<LogEntry> {
    if es == [] then []
    else Before(es[..|es| - 1], i) + (if es[|es| - 1].index < i then [es[|es| - 1]] else [])
  }

  /** One segment behind the other. */
  function Concat(dir: Dir, starts: seq<LogIndex>): seq<LogEntry>
    requires forall k :: k in starts ==> k in dir
  {
    if starts == [] then [] else Concat(dir, starts[..|starts| - 1]) + dir[starts[|starts| - 1]]
  }

  function Later(starts: seq<LogIndex>, from: LogIndex): (r: seq<LogIndex>)
    ensures forall k :: k in r <==> k in starts && k >= from
  {
    if starts == [] then []
    else
      assert forall k :: k in starts <==> k in starts[..|starts| - 1] || k == starts[|starts| - 1];
      Later(starts[..|starts| - 1], from) + (if starts[|starts| - 1] >= from then [starts[|starts| - 1]] else [])
  }

  /** All entries: the segments in ascending order. */
  function ReplayAll(dir: Dir): seq<LogEntry> {
    SortedIdsElements(dir.Keys);
    Concat(dir, SortedIds(dir.Keys))
  }

  /** Only the segments from the one of `i` on are read, and of those only entries from `i` on. */
  function ReplayFrom(dir: Dir, i: LogIndex, size: u64): seq<LogEntry>
    requires size > 0
  {
    SortedIdsElements(dir.Keys);
    AtLeast(Concat(dir, Later(SortedIds(dir.Keys), SegmentStart(i, size))), i)
  }

  /** Every entry lies in the segment of its index. */
  ghost predicate Placed(dir: Dir, size: u64)
    requires size > 0
  {
    forall k, j {:trigger dir[k][j]} :: k in dir && 0 <= j < |dir[k]| ==> SegmentStart(dir[k][j].index, size) == k
  }

  lemma {:induction false} AtLeastAppend(a: seq<LogEntry>, b: seq<LogEntry>, i: LogIndex)
    ensures AtLeast(a + b, i) == AtLeast(a, i) + AtLeast(b, i)
    decreases |b|
  {
    if b == [] {
      assert a + b == a;
    } else {
      assert (a + b)[..|a + b| - 1] == a + b[..|b| - 1];
      AtLeastAppend(a, b[..|b| - 1], i);
    }
  }

  lemma {:induction false} NoneAtLeast(es: seq<LogEntry>, i: LogIndex)
    requires forall j :: 0 <= j < |es| ==> es[j].index < i
    ensures AtLeast(es, i) == []
  {
    if es != [] { NoneAtLeast(es[..|es| - 1], i); }
  }

  lemma {:induction false} SkippedSegments(dir: Dir, starts: seq<LogIndex>, i: LogIndex, size: u64)
    requires size > 0 && Placed(dir, size) && forall k :: k in starts ==> k in dir
    ensures AtLeast(Concat(dir, Later(starts, SegmentStart(i, size))), i) == AtLeast(Concat(dir, starts), i)
  {
    if starts != [] {
      var front, last, seg := starts[..|starts| - 1], starts[|starts| - 1], SegmentStart(i, size);
      assert forall k :: k in front ==> k in starts;
      SkippedSegments(dir, front, i, size);
      AtLeastAppend(Concat(dir, front), dir[last], i);
      if last >= seg {
        var kept := Later(front, seg);
        assert Later(starts, seg) == kept + [last] && (kept + [last])[..|kept|] == kept;
        AtLeastAppend(Concat(dir, kept), dir[last], i);
      } else {
        SegmentBelow(dir, last, i, size);
        assert Later(starts, seg) == Later(front, seg);
      }
    }
  }

  lemma SegmentBelow(dir: Dir, k: LogIndex, i: LogIndex, size: u64)
    requires size > 0 && Placed(dir, size) && k in dir && k < SegmentStart(i, size)
    ensures AtLeast(dir[k], i) == []
  {
    forall j | 0 <= j < |dir[k]|
      ensures dir[k][j].index < i
    {
      if dir[k][j].index >= i { SegmentMonotone(i, dir[k][j].index, size); }
    }
    NoneAtLeast(dir[k], i);
  }

  /** Reading from `i` is reading everything and keeping what is at or behind `i`, in order. */
  lemma ReplayFromIsFilter(dir: Dir, i: LogIndex, size: u64)
    requires size > 0 && Placed(dir, size)
    ensures ReplayFrom(dir, i, size) == AtLeast(ReplayAll(dir), i)
  {
    SortedIdsElements(dir.Keys);
    SkippedSegments(dir, SortedIds(dir.Keys), i, size);
  }

  // ----- Writing -----

  function Append(dir: Dir, e: LogEntry, size: u64): Dir
    requires size > 0
  {
    dir[SegmentStart(e.index, size) := GetOr(dir, SegmentStart(e.index, size), []) + [e]]
  }

  lemma AppendPlaced(dir: Dir, e: LogEntry, size: u64)
    requires size > 0 && Placed(dir, size)
    ensures Placed(Append(dir, e, size), size)
  {
    hide SegmentStart;
  }

  /** Entry by entry into an empty directory. */
  function Rebuild(es: seq<LogEntry>, size: u64): Dir
    requires size > 0
  {
    if es == [] then map[] else Append(Rebuild(es[..|es| - 1], size), es[|es| - 1], size)
  }

  function Truncate(dir: Dir, i: LogIndex, size: u64): Dir
    requires size > 0
  {
    Rebuild(Before(ReplayAll(dir), i), size)
  }

  /** Segments never go down along the list. */
  ghost predicate BySegment(es: seq<LogEntry>, size: u64)
    requires size > 0
  {
    forall i, j :: 0 <= i <= j < |es| ==> SegmentStart(es[i].index, size) <= SegmentStart(es[j].index, size)
  }

  lemma {:induction false} RebuildPlaced(es: seq<LogEntry>, size: u64)
    requires size > 0
    ensures Placed(Rebuild(es, size), size)
    ensures forall k :: k in Rebuild(es, size) ==> exists j :: 0 <= j < |es| && SegmentStart(es[j].index, size) == k
  {
    hide SegmentStart;
    if es != [] {
      var front, last := es[..|es| - 1], es[|es| - 1];
      RebuildPlaced(front, size);
      AppendPlaced(Rebuild(front, size), last, size);
      forall k | k in Rebuild(es, size)
        ensures exists j :: 0 <= j < |es| && SegmentStart(es[j].index, size) == k
      {
        if k in Rebuild(front, size) {
          var j :| 0 <= j < |front| && SegmentStart(front[j].index, size) == k;
          assert es[j] == front[j];
        } else {
          assert SegmentStart(es[|es| - 1].index, size) == k;
        }
      }
    }
  }

  /** The last of the sorted keys. */
  lemma {:induction false} SortedIdsLast(s: set<u64>, m: u64)
    requires m in s && forall x :: x in s ==> x <= m
    ensures SortedIds(s) == SortedIds(s - {m}) + [m]
    decreases |s|
  {
    var l := Least(s);
    if l == m {
      assert s == {m};
    } else {
      SortedIdsLast(s - {l}, m);
      LeastWithout(s, m);
      assert s - {m} - {l} == s - {l} - {m};
      assert SortedIds(s) == [l] + (SortedIds(s - {l} - {m}) + [m]);
    }
  }

  lemma LeastWithout(s: set<u64>, m: u64)
    requires m in s && Least(s) != m
    ensures s - {m} != {} && Least(s - {m}) == Least(s)
  {
    assert Least(s) in s - {m};
  }

  lemma {:induction false} ConcatSame(a: Dir, b: Dir, starts: seq<LogIndex>)
    requires forall k :: k in starts ==> k in a && k in b && a[k] == b[k]
    ensures Concat(a, starts) == Concat(b, starts)
  {
    if starts != [] {
      assert forall k :: k in starts[..|starts| - 1] ==> k in starts;
      ConcatSame(a, b, starts[..|starts| - 1]);
      assert starts[|starts| - 1] in starts;
    }
  }

  /** An entry for the last segment, or a later one, is read last. */
  lemma AppendAtEnd(dir: Dir, e: LogEntry, size: u64)
    requires size > 0 && forall k :: k in dir ==> k <= SegmentStart(e.index, size)
    ensures ReplayAll(Append(dir, e, size)) == ReplayAll(dir) + [e]
  {
    hide SegmentStart, SortedIds;
    var m, dir' := SegmentStart(e.index, size), Append(dir, e, size);
    var rest := dir.Keys - {m};
    assert dir'.Keys == dir.Keys + {m} && dir'.Keys - {m} == rest;
    SortedIdsLast(dir'.Keys, m);
    SortedIdsElements(rest);
    SortedIdsElements(dir.Keys);
    SortedIdsElements(dir'.Keys);
    var starts := SortedIds(rest);
    assert (starts + [m])[..|starts|] == starts;
    ConcatSame(dir, dir', starts);
    if m in dir {
      SortedIdsLast(dir.Keys, m);
      assert Concat(dir, starts) + (dir[m] + [e]) == Concat(dir, starts) + dir[m] + [e];
    } else {
      assert rest == dir.Keys && [] + [e] == [e];
    }
  }

  /** Rebuilding from a list that is in segment order reads back the list. */
  lemma {:induction false} RebuildReadsBack(es: seq<LogEntry>, size: u64)
    requires size > 0 && BySegment(es, size)
    ensures ReplayAll(Rebuild(es, size)) == es
  {
    hide SegmentStart, Append;
    if es == [] {
      assert SortedIds({}) == [];
    } else {
      var front, last := es[..|es| - 1], es[|es| - 1];
      RebuildReadsBack(front, size);
      RebuildPlaced(front, size);
      forall k | k in Rebuild(front, size)
        ensures k <= SegmentStart(last.index, size)
      {
        var j :| 0 <= j < |front| && SegmentStart(front[j].index, size) == k;
        assert es[j] == front[j];
      }
      AppendAtEnd(Rebuild(front, size), last, size);
      assert es == front + [last];
    }
  }

  lemma {:induction false} ConcatBySegment(dir: Dir, starts: seq<LogIndex>, size: u64)
    requires size > 0 && Placed(dir, size) && (forall k :: k in starts ==> k in dir)
    requires forall i, j :: 0 <= i < j < |starts| ==> starts[i] < starts[j]
    ensures BySegment(Concat(dir, starts), size)
    ensures forall j :: 0 <= j < |Concat(dir, starts)| ==>
            starts != [] && SegmentStart(Concat(dir, starts)[j].index, size) <= starts[|starts| - 1]
  {
    hide SegmentStart;
    if starts != [] {
      var front, last := starts[..|starts| - 1], starts[|starts| - 1];
      assert last in starts && forall k :: k in front ==> k in starts;
      ConcatBySegment(dir, front, size);
      var a, b := Concat(dir, front), dir[last];
      assert forall j :: 0 <= j < |b| ==> SegmentStart(b[j].index, size) == last;
      JoinBySegment(a, b, last, size);
    }
  }

  lemma JoinBySegment(a: seq<LogEntry>, b: seq<LogEntry>, k: LogIndex, size: u64)
    requires size > 0 && BySegment(a, size)
    requires forall j :: 0 <= j < |a| ==> SegmentStart(a[j].index, size) <= k
    requires forall j :: 0 <= j < |b| ==> SegmentStart(b[j].index, size) == k
    ensures BySegment(a + b, size) && forall j :: 0 <= j < |a + b| ==> SegmentStart((a + b)[j].index, size) <= k
  {
    hide SegmentStart;
  }

  /** Leaving entries out keeps the segment order; each kept entry comes from the list. */
  lemma {:induction false} BeforeBySegment(es: seq<LogEntry>, i: LogIndex, size: u64)
    requires size > 0 && BySegment(es, size)
    ensures BySegment(Before(es, i), size)
    ensures forall j :: 0 <= j < |Before(es, i)| ==>
            es != [] && SegmentStart(Before(es, i)[j].index, size) <= SegmentStart(es[|es| - 1].index, size)
  {
    hide SegmentStart;
    if es != [] {
      var front, last := es[..|es| - 1], es[|es| - 1];
      BeforeBySegment(front, i, size);
      if front != [] { assert SegmentStart(es[|front| - 1].index, size) <= SegmentStart(last.index, size); }
      if last.index < i {
        JoinBySegment(Before(front, i), [last], SegmentStart(last.index, size), size);
      } else {
        assert Before(es, i) == Before(front, i);
      }
    }
  }

  /** Truncation leaves exactly the entries below `i`, in the same order, well placed. */
  lemma TruncateExactly(dir: Dir, i: LogIndex, size: u64)
    requires size > 0 && Placed(dir, size)
    ensures ReplayAll(Truncate(dir, i, size)) == Before(ReplayAll(dir), i)
    ensures Placed(Truncate(dir, i, size), size)
  {
    hide SegmentStart, BySegment;
    SortedIdsElements(dir.Keys);
    SortedIdsAscend(dir.Keys);
    ConcatBySegment(dir, SortedIds(dir.Keys), size);
    BeforeBySegment(ReplayAll(dir), i, size);
    RebuildReadsBack(Before(ReplayAll(dir), i), size);
    RebuildPlaced(Before(ReplayAll(dir), i), size);
  }

  /** Segments that end before the one holding `retained`. */
  function Candidates(dir: Dir, retained: LogIndex, size: u64): set<LogIndex>
    requires size > 0
  {
    set k | k in dir && k < SegmentStart(retained, size)
  }

  function NotBelow(s: set<u64>, from: u64): set<u64> {
    set x | x in s && x >= from
  }

  lemma {:induction false} LaterOfSubset(s: set<u64>, from: u64)
    ensures Later(SortedIds(s), from) == SortedIds(NotBelow(s, from))
    decreases |s|
  {
    hide Later;
    if s == {} {
      assert NotBelow(s, from) == {};
      LaterNothing(from);
    } else {
      var l := Least(s);
      LaterOfSubset(s - {l}, from);
      LaterFirst(l, SortedIds(s - {l}), from);
      if l >= from {
        assert NotBelow(s, from) == s && NotBelow(s - {l}, from) == s - {l};
      } else {
        assert NotBelow(s - {l}, from) == NotBelow(s, from);
      }
    }
  }

  lemma LaterNothing(from: u64)
    ensures Later([], from) == []
  {
  }

  lemma {:induction false} LaterFirst(x: u64, rest: seq<u64>, from: u64)
    ensures Later([x] + rest, from) == (if x >= from then [x] else []) + Later(rest, from)
  {
    if rest == [] {
      assert [x] + rest == [x] && [x][..0] == [];
    } else {
      var front := rest[..|rest| - 1];
      assert ([x] + rest)[..|rest|] == [x] + front;
      LaterFirst(x, front, from);
    }
  }

  /** Deleting every candidate before `r` changes nothing that is read from `r` on. */
  lemma CompactionIsInvisible(dir: Dir, r: LogIndex, size: u64)
    requires size > 0
    ensures ReplayFrom(dir - Candidates(dir, r, size), r, size) == ReplayFrom(dir, r, size)
  {
    hide SegmentStart, SortedIds, Later;
    var seg, dir' := SegmentStart(r, size), dir - Candidates(dir, r, size);
    LaterOfSubset(dir.Keys, seg);
    LaterOfSubset(dir'.Keys, seg);
    assert NotBelow(dir.Keys, seg) == NotBelow(dir'.Keys, seg);
    SortedIdsElements(dir.Keys);
    SortedIdsElements(dir'.Keys);
    SortedIdsElements(NotBelow(dir.Keys, seg));
    ConcatSame(dir, dir', Later(SortedIds(dir.Keys), seg));
  }

  /** Every index that could be filed in segment `k` lies before `retained`, in another segment. */
  ghost predicate Droppable(k: LogIndex, retained: LogIndex, size: u64)
    requires size > 0
  {
    forall i: LogIndex {:trigger SegmentStart(i, size)} ::
      SegmentStart(i, size) == k ==> i < retained && SegmentStart(retained, size) != k
  }

  /** A segment file is a candidate exactly when nothing that belongs in it is still retained. */
  lemma CandidateExactly(dir: Dir, k: LogIndex, retained: LogIndex, size: u64)
    requires size > 0 && k in dir && Starts(k, size)
    ensures k in Candidates(dir, retained, size) <==> Droppable(k, retained, size)
  {
    hide SegmentStart;
    StartIsItself(k, size);
    if k in Candidates(dir, retained, size) {
      forall i: LogIndex | SegmentStart(i, size) == k
        ensures i < retained
      {
        if i >= retained { SegmentMonotone(retained, i, size); }
      }
    } else if k < retained {
      SegmentMonotone(k, retained, size);
    }
  }

  /** An entry survives the deletion exactly when it is not before the retained index's segment. */
  lemma SurvivesExactly(dir: Dir, k: LogIndex, j: nat, retained: LogIndex, size: u64)
    requires size > 0 && Placed(dir, size) && k in dir && j < |dir[k]|
    ensures k in dir - Candidates(dir, retained, size) <==> dir[k][j].index >= SegmentStart(retained, size)
  {
    var seg := SegmentStart(retained, size);
    SegmentExactly(retained, seg, size);
    hide SegmentStart;
    StartIsItself(seg, size);
    if dir[k][j].index >= seg {
      SegmentMonotone(seg, dir[k][j].index, size);
    } else {
      SegmentExactly(dir[k][j].index, k, size);
    }
  }

  // ----- Segment files -----

  const HEADER_V1: bytes := [0x4E, 0x34, 0x52, 0x4C, 0x4F, 0x47, 0x31, 0x0A]
  const HEADER_V2: bytes := [0x4E, 0x34, 0x52, 0x4C, 0x4F, 0x47, 0x32, 0x0A]

  function Frame(payload: bytes): bytes {
    Len(|payload|) + payload
  }

  function Frames(payloads: seq<bytes>): bytes {
    if payloads == [] then [] else Frame(payloads[0]) + Frames(payloads[1..])
  }

  /** What appending writes: every entry in its current layout. */
  function Payloads(es: seq<LogEntry>): (r: seq<bytes>)
    ensures |r| == |es|
  {
    seq(|es|, j requires 0 <= j < |es| => EncV3(es[j]))
  }

  datatype LogError = BadBytes(error: CodecError) | WrongShard | TooLarge | BadHeader

  /** Read frames to the end of the file; a foreign entry stops the replay. */
  function ReadFrames(i: bytes, p: nat, shard: ShardId, got: seq<LogEntry>): Result<seq<LogEntry>, LogError>
    requires p <= |i|
    decreases |i| - p
  {
    if p == |i| then Ok(got)
    else
      match ParseU32(i, p)
      case Err(e) => Err(BadBytes(e))
      case Ok((n, q)) =>
        match ParseExact(i, q, n)
        case Err(e) => Err(BadBytes(e))
        case Ok((payload, end)) =>
          match DecodeLogEntry(payload)
          case Err(e) => Err(BadBytes(e))
          case Ok(entry) =>
            if entry.shardId != shard then Err(WrongShard) else ReadFrames(i, end, shard, got + [entry])
  }

  function ReadFile(i: bytes, shard: ShardId): Result<seq<LogEntry>, LogError> {
    if StartsWith(i, HEADER_V1) || StartsWith(i, HEADER_V2) then ReadFrames(i, 8, shard, []) else Err(BadHeader)
  }

  ghost predicate Storable(e: LogEntry, shard: ShardId) {
    e.shardId == shard && SizedEntry(e) && |EncV3(e)| < 0x1_0000_0000
  }

  /** A payload that decodes to an entry of the shard, in whatever layout. */
  ghost predicate Holds(payload: bytes, e: LogEntry, shard: ShardId) {
    |payload| < 0x1_0000_0000 && DecodeLogEntry(payload) == Ok(e) && e.shardId == shard
  }

  lemma FrameAt(i: bytes, p: nat, payload: bytes, e: LogEntry, shard: ShardId, got: seq<LogEntry>)
    requires Holds(payload, e, shard) && At(i, p, Frame(payload))
    ensures p + |Frame(payload)| <= |i| && p < p + |Frame(payload)|
    ensures ReadFrames(i, p, shard, got) == ReadFrames(i, p + |Frame(payload)|, shard, got + [e])
  {
    hide At, DecodeLogEntry, ParseU32, ParseExact;
    AtFits(i, p, Frame(payload));
    AtConcat(i, p, Len(|payload|), payload);
    U32At(i, p, |payload|);
    AtIsSlice(i, p + 4, payload);
  }

  lemma {:induction false} FramesAt(
    i: bytes, p: nat, payloads: seq<bytes>, es: seq<LogEntry>, shard: ShardId, got: seq<LogEntry>)
    requires |payloads| == |es| && forall j :: 0 <= j < |es| ==> Holds(payloads[j], es[j], shard)
    requires At(i, p, Frames(payloads)) && p + |Frames(payloads)| == |i|
    ensures ReadFrames(i, p, shard, got) == Ok(got + es)
    decreases |es|
  {
    hide At, Frame, ReadFrames, Holds;
    if es == [] {
      EndOfFile(i, shard, got);
      assert got + es == got;
    } else {
      AtConcat(i, p, Frame(payloads[0]), Frames(payloads[1..]));
      FrameAt(i, p, payloads[0], es[0], shard, got);
      FramesAt(i, p + |Frame(payloads[0])|, payloads[1..], es[1..], shard, got + [es[0]]);
      assert got + [es[0]] + es[1..] == got + es;
    }
  }

  lemma EndOfFile(i: bytes, shard: ShardId, got: seq<LogEntry>)
    ensures ReadFrames(i, |i|, shard, got) == Ok(got)
  {
  }

  /** A file with either header reads as the entries of its payloads, old and new layouts mixed. */
  lemma MixedFileReads(header: bytes, payloads: seq<bytes>, es: seq<LogEntry>, shard: ShardId)
    requires header == HEADER_V1 || header == HEADER_V2
    requires |payloads| == |es| && forall j :: 0 <= j < |es| ==> Holds(payloads[j], es[j], shard)
    ensures ReadFile(header + Frames(payloads), shard) == Ok(es)
  {
    hide At, Frames, ReadFrames, Holds, StartsWith;
    var i := header + Frames(payloads);
    MagicAt(i, header, Frames(payloads));
    FramesAt(i, 8, payloads, es, shard, []);
    assert [] + es == es;
  }

  /** A foreign entry anywhere in a file stops the replay with an error. */
  lemma {:induction false} ForeignEntryStops(
    i: bytes, p: nat, payloads: seq<bytes>, es: seq<LogEntry>, shard: ShardId, got: seq<LogEntry>)
    requires |payloads| == |es| && !AllOf(es, shard)
    requires forall j :: 0 <= j < |es| ==> Holds(payloads[j], es[j], es[j].shardId)
    requires At(i, p, Frames(payloads))
    ensures p <= |i| && ReadFrames(i, p, shard, got) == Err(WrongShard)
    decreases |es|
  {
    hide At, Frame, Holds, ReadFrames, AllOf;
    AtFits(i, p, Frames(payloads));
    OneIsForeign(es, shard);
    AtConcat(i, p, Frame(payloads[0]), Frames(payloads[1..]));
    if es[0].shardId == shard {
      FrameAt(i, p, payloads[0], es[0], shard, got);
      ForeignEntryStops(i, p + |Frame(payloads[0])|, payloads[1..], es[1..], shard, got + [es[0]]);
    } else {
      ForeignFrame(i, p, payloads[0], es[0], shard, got);
    }
  }

  lemma OneIsForeign(es: seq<LogEntry>, shard: ShardId)
    requires !AllOf(es, shard)
    ensures es != [] && (es[0].shardId == shard ==> !AllOf(es[1..], shard))
  {
    if es != [] { assert forall j :: 0 < j < |es| ==> es[j] == es[1..][j - 1]; }
  }

  lemma ForeignFrame(i: bytes, p: nat, payload: bytes, e: LogEntry, shard: ShardId, got: seq<LogEntry>)
    requires Holds(payload, e, e.shardId) && At(i, p, Frame(payload)) && e.shardId != shard
    ensures p < |i| && ReadFrames(i, p, shard, got) == Err(WrongShard)
  {
    hide At, DecodeLogEntry, ParseU32, ParseExact;
    AtFits(i, p, Frame(payload));
    AtConcat(i, p, Len(|payload|), payload);
    U32At(i, p, |payload|);
    AtIsSlice(i, p + 4, payload);
  }

  /** A segment file reads back exactly the entries that were appended to it. */
  lemma FileRoundTrip(header: bytes, es: seq<LogEntry>, shard: ShardId)
    requires header == HEADER_V1 || header == HEADER_V2
    requires forall e {:trigger e in es} :: e in es ==> Storable(e, shard)
    ensures ReadFile(header + Frames(Payloads(es)), shard) == Ok(es)
  {
    hide ReadFile, Frames, DecodeLogEntry, SizedEntry, EncV3;
    forall j | 0 <= j < |es|
      ensures Holds(Payloads(es)[j], es[j], shard)
    {
      assert es[j] in es;
      V3RoundTrip(es[j]);
    }
    MixedFileReads(header, Payloads(es), es, shard);
  }

  lemma RebuildStarts(es: seq<LogEntry>, size: u64)
    requires size > 0
    ensures forall k :: k in Rebuild(es, size) ==> Starts(k, size)
  {
    hide SegmentStart, Starts, Rebuild, Placed;
    RebuildPlaced(es, size);
    forall k | k in Rebuild(es, size)
      ensures Starts(k, size)
    {
      var j :| 0 <= j < |es| && SegmentStart(es[j].index, size) == k;
      SegmentExactly(es[j].index, k, size);
    }
  }

  // ----- The log -----

  predicate AllOf(es: seq<LogEntry>, shard: ShardId) {
    forall j :: 0 <= j < |es| ==> es[j].shardId == shard
  }

  class SegmentedShardLog {
    const shard: ShardId
    const size: u64
    var dir: Dir

    ghost predicate Valid()
      reads this
    {
      && size > 0 && Placed(dir, size) && (forall k :: k in dir ==> Starts(k, size))
      && forall k, j {:trigger dir[k][j]} :: k in dir && 0 <= j < |dir[k]| ==> dir[k][j].shardId == shard
    }

    constructor (shard: ShardId, size: u64)
      requires size > 0
      ensures Valid() && dir == map[] && this.shard == shard && this.size == size
    {
      this.shard, this.size, dir := shard, size, map[];
    }

    /** A foreign entry is refused; an oversized one may still leave an empty segment file. */
    method AppendEntry(e: LogEntry) returns (r: Result<(), LogError>)
      requires Valid()
      modifies this
      ensures Valid()
      ensures e.shardId != shard ==> r == Err(WrongShard) && dir == old(dir)
      ensures e.shardId == shard && |EncV3(e)| >= 0x1_0000_0000 ==>
                r == Err(TooLarge) && ReplayAll(dir) == ReplayAll(old(dir))
      ensures e.shardId == shard && |EncV3(e)| < 0x1_0000_0000 ==>
                r == Ok(()) && dir == Append(old(dir), e, size)
    {
      hide EncV3, SegmentStart, SortedIds, Starts;
      if e.shardId != shard {
        return Err(WrongShard);
      }
      var k := SegmentStart(e.index, size);
      SegmentExactly(e.index, k, size);
      if |EncV3(e)| >= 0x1_0000_0000 {
        EmptySegment(dir, k);
        dir := dir[k := GetOr(dir, k, [])];
        return Err(TooLarge);
      }
      AppendPlaced(dir, e, size);
      dir := dir[k := GetOr(dir, k, []) + [e]];
      r := Ok(());
    }

    /** One segment file: a foreign entry stops the replay, entries before `start` are skipped. */
    method ReadSegment(file: seq<LogEntry>, start: LogIndex) returns (r: Result<seq<LogEntry>, LogError>)
      ensures r == if AllOf(file, shard) then Ok(AtLeast(file, start)) else Err(WrongShard)
    {
      var entries := [];
      for j := 0 to |file|
        invariant entries == AtLeast(file[..j], start) && AllOf(file[..j], shard)
      {
        assert file[..j + 1][..j] == file[..j] && file[..j + 1][j] == file[j];
        if file[j].shardId != shard {
          return Err(WrongShard);
        }
        if file[j].index >= start {
          entries := entries + [file[j]];
        }
      }
      assert file[..|file|] == file;
      r := Ok(entries);
    }

    method ReplayEntriesFrom(start: LogIndex) returns (r: Result<seq<LogEntry>, LogError>)
      requires Valid()
      ensures r == Ok(ReplayFrom(dir, start, size)) && r == Ok(AtLeast(ReplayAll(dir), start))
    {
      hide SegmentStart, SortedIds, AtLeast, Placed, Later, Starts;
      ReplayFromIsFilter(dir, start, size);
      SortedIdsElements(dir.Keys);
      var starts := Later(SortedIds(dir.Keys), SegmentStart(start, size));
      var entries := [];
      assert AtLeast([], start) == [] by { NoneAtLeast([], start); }
      for i := 0 to |starts|
        invariant entries == AtLeast(Concat(dir, starts[..i]), start)
      {
        assert starts[i] in starts && starts[..i + 1][..i] == starts[..i];
        assert AllOf(dir[starts[i]], shard);
        var file := ReadSegment(dir[starts[i]], start);
        AtLeastAppend(Concat(dir, starts[..i]), dir[starts[i]], start);
        entries := entries + file.value;
      }
      assert starts[..|starts|] == starts;
      r := Ok(entries);
    }

    /** Read everything, keep what is below `index`, and write it into a fresh directory. */
    method TruncateFrom(index: LogIndex)
      requires Valid()
      modifies this
      ensures Valid() && ReplayAll(dir) == Before(ReplayAll(old(dir)), index)
    {
      hide SegmentStart, SortedIds, Placed, Concat, AtLeast, ReplayAll, Starts;
      var all := ReplayEntriesFrom(0);
      AtLeastZero(ReplayAll(dir));
      var rebuilt: Dir := map[];
      ghost var kept: seq<LogEntry> := [];
      for i := 0 to |all.value|
        invariant kept == Before(all.value[..i], index) && rebuilt == Rebuild(kept, size)
        invariant dir == old(dir)
      {
        assert all.value[..i + 1][..i] == all.value[..i];
        var e := all.value[i];
        if e.index < index {
          assert (kept + [e])[..|kept|] == kept;
          rebuilt := Append(rebuilt, e, size);
          kept := kept + [e];
        }
      }
      assert all.value[..|all.value|] == all.value;
      TruncateExactly(dir, index, size);
      OwnEntries(dir, shard, index, size);
      RebuildStarts(kept, size);
      dir := rebuilt;
    }

    /** The segments that a compaction may delete. */
    method CompactionCandidates(retained: LogIndex) returns (r: set<LogIndex>)
      requires Valid()
      ensures r == Candidates(dir, retained, size)
      ensures forall k :: k in r <==> k in dir && Droppable(k, retained, size)
      ensures ReplayFrom(dir - r, retained, size) == ReplayFrom(dir, retained, size)
    {
      hide SegmentStart, Starts, Droppable;
      CompactionIsInvisible(dir, retained, size);
      forall k | k in dir
        ensures k in Candidates(dir, retained, size) <==> Droppable(k, retained, size)
      {
        CandidateExactly(dir, k, retained, size);
      }
      r := set k | k in dir && k < SegmentStart(retained, size);
    }
  }

  lemma {:induction false} AtLeastZero(es: seq<LogEntry>)
    ensures AtLeast(es, 0) == es
  {
    if es != [] {
      AtLeastZero(es[..|es| - 1]);
      assert es == es[..|es| - 1] + [es[|es| - 1]];
    }
  }

  /** An empty file adds nothing to a replay. */
  lemma {:induction false} ConcatWith(dir: Dir, k: LogIndex, starts: seq<LogIndex>)
    requires forall x :: x in starts ==> x in dir || x == k
    requires k !in dir
    ensures Concat(dir[k := []], starts) == Concat(dir, Except(starts, k))
  {
    if starts != [] {
      var front, last := starts[..|starts| - 1], starts[|starts| - 1];
      assert forall x :: x in front ==> x in starts;
      ConcatWith(dir, k, front);
      if last == k {
        assert Except(starts, k) == Except(front, k);
      } else {
        assert last in starts && Except(starts, k) == Except(front, k) + [last];
        assert (Except(front, k) + [last])[..|Except(front, k)|] == Except(front, k);
      }
    }
  }

  function Except(starts: seq<LogIndex>, k: LogIndex): (r: seq<LogIndex>)
    ensures forall x :: x in r <==> x in starts && x != k
  {
    if starts == [] then []
    else
      assert forall x :: x in starts <==> x in starts[..|starts| - 1] || x == starts[|starts| - 1];
      Except(starts[..|starts| - 1], k) + (if starts[|starts| - 1] == k then [] else [starts[|starts| - 1]])
  }

  lemma {:induction false} SortedExcept(s: set<u64>, k: u64)
    ensures Except(SortedIds(s), k) == SortedIds(s - {k})
    decreases |s|
  {
    hide Except;
    if s == {} {
      assert s - {k} == {};
      ExceptNothing(k);
    } else {
      var l := Least(s);
      SortedExcept(s - {l}, k);
      ExceptFirst(l, SortedIds(s - {l}), k);
      if l == k {
        assert s - {l} - {k} == s - {k};
      } else {
        assert l in s - {k} && Least(s - {k}) == l;
        assert s - {k} - {l} == s - {l} - {k};
      }
    }
  }

  lemma ExceptNothing(k: u64)
    ensures Except([], k) == []
  {
  }

  lemma {:induction false} ExceptFirst(x: u64, rest: seq<u64>, k: u64)
    ensures Except([x] + rest, k) == (if x == k then [] else [x]) + Except(rest, k)
  {
    if rest == [] {
      assert [x] + rest == [x] && [x][..0] == [];
    } else {
      var front := rest[..|rest| - 1];
      assert ([x] + rest)[..|rest|] == [x] + front;
      ExceptFirst(x, front, k);
    }
  }

  lemma EmptySegment(dir: Dir, k: LogIndex)
    ensures ReplayAll(dir[k := GetOr(dir, k, [])]) == ReplayAll(dir)
  {
    hide SortedIds;
    if k in dir {
      assert dir[k := dir[k]] == dir;
    } else {
      var keys := dir.Keys + {k};
      assert dir[k := []].Keys == keys && keys - {k} == dir.Keys;
      SortedIdsElements(keys);
      SortedIdsElements(dir.Keys);
      SortedExcept(keys, k);
      ConcatWith(dir, k, SortedIds(keys));
    }
  }

  lemma {:induction false} BeforeElements(es: seq<LogEntry>, i: LogIndex, x: LogEntry)
    ensures x in Before(es, i) <==> x in es && x.index < i
  {
    if es != [] {
      BeforeElements(es[..|es| - 1], i, x);
      assert x in es <==> x in es[..|es| - 1] || x == es[|es| - 1];
    }
  }

  lemma {:induction false} ConcatElements(dir: Dir, starts: seq<LogIndex>, x: LogEntry)
    requires (forall k :: k in starts ==> k in dir) && x in Concat(dir, starts)
    ensures exists k, j :: k in dir && 0 <= j < |dir[k]| && dir[k][j] == x
  {
    var front, last := starts[..|starts| - 1], starts[|starts| - 1];
    assert last in starts && forall k :: k in front ==> k in starts;
    if x in dir[last] {
      var j :| 0 <= j < |dir[last]| && dir[last][j] == x;
    } else {
      ConcatElements(dir, front, x);
    }
  }

  lemma {:induction false} RebuildElements(es: seq<LogEntry>, size: u64, k: LogIndex, j: nat)
    requires size > 0 && k in Rebuild(es, size) && j < |Rebuild(es, size)[k]|
    ensures Rebuild(es, size)[k][j] in es
  {
    hide SegmentStart;
    var front, last := es[..|es| - 1], es[|es| - 1];
    var before := Rebuild(front, size);
    if k in before && j < |before[k]| {
      RebuildElements(front, size, k, j);
      assert Rebuild(es, size)[k][j] in front;
    } else {
      assert Rebuild(es, size)[k][j] == last;
    }
  }

  /** Truncation adds no entry of another shard. */
  lemma OwnEntries(dir: Dir, shard: ShardId, i: LogIndex, size: u64)
    requires size > 0
    requires forall k, j {:trigger dir[k][j]} :: k in dir && 0 <= j < |dir[k]| ==> dir[k][j].shardId == shard
    ensures var dir' := Truncate(dir, i, size);
            forall k, j {:trigger dir'[k][j]} :: k in dir' && 0 <= j < |dir'[k]| ==> dir'[k][j].shardId == shard
  {
    hide SegmentStart, SortedIds, Rebuild;
    var dir': Dir := Truncate(dir, i, size);
    var kept := Before(ReplayAll(dir), i);
    SortedIdsElements(dir.Keys);
    forall k: LogIndex, j: nat | k in dir' && j < |dir'[k]|
      ensures dir'[k][j].shardId == shard
    {
      RebuildElements(kept, size, k, j);
      BeforeElements(ReplayAll(dir), i, dir'[k][j]);
      ConcatElements(dir, SortedIds(dir.Keys), dir'[k][j]);
    }
  }
}
