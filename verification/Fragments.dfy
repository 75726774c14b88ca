/** Reassembly of fragmented Mode 6 responses: the collector as a partial byte map, the
    class that keeps it as an ordered map of fragments, and delivery of a whole message. */
module Fragments {
  import opened Wrappers
  import opened Bytes

  const U16 := 65535

  datatype Fragment = Fragment(offset: nat, count: nat, data: seq<Byte>, more: bool, status: nat, associd: nat)

  datatype Failure =
    | CountMismatch
    | InconsistentStatus
    | InconsistentAssocid
    | Overflow
    | Conflict
    | BeyondExtent
    | Shrinking
    | InconsistentExtent
    | ExceedsNewExtent
    | Incomplete

  datatype Outcome<+T> = Ok(value: T) | Err(failure: Failure)

  datatype Collector = Collector(
    fragments: map<nat, seq<Byte>>,
    finalEnd: Option<nat>,
    status: Option<nat>,
    associd: Option<nat>)

  const EMPTY := Collector(map[], None, None, None)

  // ---------- The byte map ----------

  /** The bytes of one piece, by position. */
  function Piece(offset: nat, data: seq<Byte>): set<(nat, Byte)> {
    set i | 0 <= i < |data| :: (offset + i, data[i])
  }

  /** All stored bytes, by position. */
  function Image(fs: map<nat, seq<Byte>>): set<(nat, Byte)> {
    set off, i | off in fs && 0 <= i < |fs[off]| :: (off + i, fs[off][i])
  }

  ghost predicate Covered(fs: map<nat, seq<Byte>>, p: nat) {
    exists off :: off in fs && off <= p < off + |fs[off]|
  }

  /** No two pieces of stored data disagree: the image is a partial function. */
  ghost predicate Functional(image: set<(nat, Byte)>) {
    forall x, y :: x in image && y in image && x.0 == y.0 ==> x.1 == y.1
  }

  /** No stored data reaches beyond `end`. */
  ghost predicate AllWithin(fs: map<nat, seq<Byte>>, end: nat) {
    forall off :: off in fs ==> off + |fs[off]| <= end
  }

  ghost predicate Inv(c: Collector) {
    && AllWithin(c.fragments, U16)
    && Functional(Image(c.fragments))
    && (c.finalEnd.Some? ==> c.finalEnd.value <= U16 && AllWithin(c.fragments, c.finalEnd.value))
  }

  /** Does the stored data contradict the piece? */
  ghost predicate Contradicts(fs: map<nat, seq<Byte>>, offset: nat, data: seq<Byte>) {
    exists x, y :: x in Image(fs) && y in Piece(offset, data) && x.0 == y.0 && x.1 != y.1
  }

  ghost predicate IsComplete(c: Collector) {
    c.finalEnd.Some? && forall p :: 0 <= p < c.finalEnd.value ==> Covered(c.fragments, p)
  }

  // ---------- One fragment ----------

  function Record(c: Collector, f: Fragment): Collector {
    var c := if c.status.None? then c.(status := Some(f.status)) else c;
    if c.status == Some(f.status) && c.associd.None? then c.(associd := Some(f.associd)) else c
  }

  /** The checks made before the fragment is stored. */
  ghost function Check(c: Collector, f: Fragment): Option<Failure> {
    if f.offset + f.count > U16 then Some(Overflow)
    else if Contradicts(c.fragments, f.offset, f.data) then Some(Conflict)
    else if c.finalEnd.Some? && f.offset + f.count > c.finalEnd.value then Some(BeyondExtent)
    else if f.offset in c.fragments && f.count < |c.fragments[f.offset]| then Some(Shrinking)
    else None
  }

  function Store(c: Collector, f: Fragment): Collector {
    c.(fragments := c.fragments[f.offset := f.data])
  }

  /** After storing: a last fragment fixes the extent, and completion is reported. */
  ghost function Finish(c: Collector, f: Fragment): (Collector, Outcome<bool>) {
    var end := f.offset + f.count;
    if f.more || c.finalEnd == Some(end) then (c, Ok(IsComplete(c)))
    else if c.finalEnd.Some? then (c, Err(InconsistentExtent))
    else if !AllWithin(c.fragments, end) then (c, Err(ExceedsNewExtent))
    else var d := c.(finalEnd := Some(end)); (d, Ok(IsComplete(d)))
  }

  /** What adding a fragment does: the new collector, and completion or the failure. */
  ghost function Add(c: Collector, f: Fragment): (Collector, Outcome<bool>) {
    if |f.data| != f.count then (c, Err(CountMismatch))
    else if c.status.Some? && c.status.value != f.status then (c, Err(InconsistentStatus))
    else if c.associd.Some? && c.associd.value != f.associd then (Record(c, f), Err(InconsistentAssocid))
    else
      var d := Record(c, f);
      var failure := Check(d, f);
      if failure.Some? then (d, Err(failure.value)) else Finish(Store(d, f), f)
  }

  /** Was the fragment stored, possibly with an error reported afterwards? */
  predicate Stored(r: Outcome<bool>) {
    r.Ok? || r.failure == InconsistentExtent || r.failure == ExceedsNewExtent
  }

  lemma ImagePieceGrows(fs: map<nat, seq<Byte>>, offset: nat, data: seq<Byte>)
    requires !Contradicts(fs, offset, data)
    requires offset in fs ==> |fs[offset]| <= |data|
    ensures Image(fs[offset := data]) == Image(fs) + Piece(offset, data)
  {
    var gs := fs[offset := data];
    forall x | x in Image(fs) ensures x in Image(gs) {
      var off, i :| off in fs && 0 <= i < |fs[off]| && x == (off + i, fs[off][i]);
      if off == offset {
        assert (offset + i, data[i]) in Piece(offset, data);
        assert x.1 == data[i];
        assert x == (offset + i, gs[offset][i]);
      } else {
        assert x == (off + i, gs[off][i]);
      }
    }
    forall x | x in Piece(offset, data) ensures x in Image(gs) {
      var i :| 0 <= i < |data| && x == (offset + i, data[i]);
      assert x == (offset + i, gs[offset][i]);
    }
    forall x | x in Image(gs) ensures x in Image(fs) + Piece(offset, data) {
      var off, i :| off in gs && 0 <= i < |gs[off]| && x == (off + i, gs[off][i]);
      if off != offset {
        assert x == (off + i, fs[off][i]);
      }
    }
  }

  lemma StoreKeeps(c: Collector, f: Fragment)
    requires Inv(c) && Check(c, f) == None && |f.data| == f.count
    ensures Inv(Store(c, f))
  {
    ImagePieceGrows(c.fragments, f.offset, f.data);
    forall x, y | x in Image(Store(c, f).fragments) && y in Image(Store(c, f).fragments) && x.0 == y.0
      ensures x.1 == y.1
    {
      assert x in Image(c.fragments) || x in Piece(f.offset, f.data);
      assert y in Image(c.fragments) || y in Piece(f.offset, f.data);
    }
  }

  /** The invariant is kept by every call, also by those that report an error after storing. */
  lemma AddKeeps(c: Collector, f: Fragment)
    requires Inv(c)
    ensures Inv(Add(c, f).0)
  {
    var d := Record(c, f);
    assert Inv(d);
    if Stored(Add(c, f).1) {
      StoreKeeps(d, f);
    }
  }

  lemma FinishKeepsData(c: Collector, f: Fragment)
    ensures var d := Finish(c, f).0;
            d.fragments == c.fragments && d.status == c.status && d.associd == c.associd
            && (c.finalEnd.Some? ==> d.finalEnd == c.finalEnd)
    ensures Stored(Finish(c, f).1)
  {
  }

  /** No stored byte is ever lost or altered, the piece is stored exactly when the call says
      so, and the extent, once known, never changes. */
  lemma AddRefines(c: Collector, f: Fragment)
    requires Inv(c)
    ensures var (d, r) := Add(c, f);
            && Image(d.fragments)
                == (if Stored(r) then Image(c.fragments) + Piece(f.offset, f.data) else Image(c.fragments))
            && (c.finalEnd.Some? ==> d.finalEnd == c.finalEnd)
            && (c.status.Some? ==> d.status == c.status)
            && (c.associd.Some? ==> d.associd == c.associd)
  {
    var e := Record(c, f);
    if Stored(Add(c, f).1) {
      ImagePieceGrows(c.fragments, f.offset, f.data);
      FinishKeepsData(Store(e, f), f);
    }
  }

  /** What each failure reports. */
  ghost predicate Violates(c: Collector, f: Fragment, e: Failure) {
    var end := f.offset + f.count;
    match e
    case CountMismatch => |f.data| != f.count
    case InconsistentStatus => c.status.Some? && c.status.value != f.status
    case InconsistentAssocid => c.associd.Some? && c.associd.value != f.associd
    case Overflow => end > 65535
    case Conflict => exists x, y :: x in Image(c.fragments) && y in Piece(f.offset, f.data) && x.0 == y.0 && x.1 != y.1
    case BeyondExtent => c.finalEnd.Some? && end > c.finalEnd.value
    case Shrinking => f.offset in c.fragments && f.count < |c.fragments[f.offset]|
    case InconsistentExtent => !f.more && c.finalEnd.Some? && c.finalEnd.value != end
    case ExceedsNewExtent => !f.more && c.finalEnd.None? && !AllWithin(c.fragments, end)
    case Incomplete => false
  }

  const CHECKS := [CountMismatch, InconsistentStatus, InconsistentAssocid, Overflow, Conflict, BeyondExtent,
                   Shrinking, InconsistentExtent, ExceedsNewExtent]

  lemma {:induction false} WithinStored(c: Collector, f: Fragment, end: nat)
    requires end == f.offset + |f.data| && !(f.offset in c.fragments && |f.data| < |c.fragments[f.offset]|)
    ensures AllWithin(Store(c, f).fragments, end) <==> AllWithin(c.fragments, end)
  {
    var fs := Store(c, f).fragments;
    forall off | off in c.fragments && AllWithin(fs, end) ensures off + |c.fragments[off]| <= end {
      assert off in fs;
    }
  }

  /** A call succeeds exactly if no check fails, and then it reports whether the message is complete. */
  lemma {:induction false} AllChecksPass(c: Collector, f: Fragment)
    ensures Add(c, f).1.Ok? <==> forall k :: 0 <= k < |CHECKS| ==> !Violates(c, f, CHECKS[k])
    ensures Add(c, f).1.Ok? ==> Add(c, f).1.value == IsComplete(Add(c, f).0)
  {
    if Add(c, f).1.Ok? {
      WithinStored(Record(c, f), f, f.offset + f.count);
    } else {
      var k := FirstViolation(c, f);
    }
  }

  lemma {:induction false} FirstViolation(c: Collector, f: Fragment) returns (k: nat)
    requires Add(c, f).1.Err?
    ensures k < |CHECKS| && Violates(c, f, CHECKS[k]) && Add(c, f).1 == Err(CHECKS[k])
    ensures forall j :: 0 <= j < k ==> !Violates(c, f, CHECKS[j])
  {
    var e := Add(c, f).1.failure;
    k := if e == CountMismatch then 0 else if e == InconsistentStatus then 1 else if e == InconsistentAssocid then 2
      else if e == Overflow then 3 else if e == Conflict then 4 else if e == BeyondExtent then 5
      else if e == Shrinking then 6 else if e == InconsistentExtent then 7 else 8;
    if e == ExceedsNewExtent {
      WithinStored(Record(c, f), f, f.offset + f.count);
    }
  }

  /** A failed call reports the first check that fails. */
  lemma {:induction false} FirstFailure(c: Collector, f: Fragment, k: nat)
    requires k < |CHECKS| && Violates(c, f, CHECKS[k]) && forall j :: 0 <= j < k ==> !Violates(c, f, CHECKS[j])
    ensures Add(c, f).1 == Err(CHECKS[k])
  {
    AllChecksPass(c, f);
    var l := FirstViolation(c, f);
    assert l == k;
  }

  /** Status and association ID are noted as soon as they agree with what is known, even if a later
      check fails. */
  lemma AddMetadata(c: Collector, f: Fragment)
    ensures var (d, r) := Add(c, f);
            if r == Err(CountMismatch) || r == Err(InconsistentStatus) then d == c
            else (d.status == Some(f.status)
                  && d.associd == (if c.associd.Some? then c.associd else Some(f.associd)))
  {
    if !Add(c, f).1.Err? || Stored(Add(c, f).1) {
      FinishKeepsData(Store(Record(c, f), f), f);
    }
  }

  /** The collector after a run of calls. */
  ghost function AddAll(c: Collector, fs: seq<Fragment>): Collector {
    if fs == [] then c else Add(AddAll(c, fs[..|fs|-1]), fs[|fs|-1]).0
  }

  lemma {:induction false} RunKeeps(c: Collector, fs: seq<Fragment>)
    requires Inv(c)
    ensures Inv(AddAll(c, fs))
    ensures Image(c.fragments) <= Image(AddAll(c, fs).fragments)
    ensures c.finalEnd.Some? ==> AddAll(c, fs).finalEnd == c.finalEnd
  {
    if fs != [] {
      var mid := AddAll(c, fs[..|fs|-1]);
      RunKeeps(c, fs[..|fs|-1]);
      AddKeeps(mid, fs[|fs|-1]);
      AddRefines(mid, fs[|fs|-1]);
    }
  }

  // ---------- Assembly ----------

  /** The message m is what the collector holds: exactly the bytes of the image, in place. */
  ghost predicate Assembled(c: Collector, m: seq<Byte>) {
    && c.finalEnd == Some(|m|)
    && Image(c.fragments) == Piece(0, m)
  }

  lemma PieceInjective(m: seq<Byte>, n: seq<Byte>)
    requires Piece(0, m) == Piece(0, n) && |m| == |n|
    ensures m == n
  {
    forall i | 0 <= i < |m| ensures m[i] == n[i] {
      assert (0 + i, m[i]) in Piece(0, m);
    }
  }

  /** Filling a buffer from every fragment gives the assembled message. */
  lemma FilledIsAssembled(c: Collector, m: seq<Byte>)
    requires Inv(c) && IsComplete(c) && |m| == c.finalEnd.value
    requires forall off, i :: off in c.fragments && 0 <= i < |c.fragments[off]| ==> m[off + i] == c.fragments[off][i]
    ensures Assembled(c, m)
  {
    forall x | x in Piece(0, m) ensures x in Image(c.fragments) {
      var p :| 0 <= p < |m| && x == (0 + p, m[p]);
      assert Covered(c.fragments, p);
      var off :| off in c.fragments && off <= p < off + |c.fragments[off]|;
      assert x == (off + (p - off), c.fragments[off][p - off]);
    }
    forall x | x in Image(c.fragments) ensures x in Piece(0, m) {
      var off, i :| off in c.fragments && 0 <= i < |c.fragments[off]| && x == (off + i, c.fragments[off][i]);
      assert x == (0 + (off + i), m[off + i]);
    }
  }

  // ---------- The class ----------

  function Least(s: set<nat>): (r: nat)
    requires s != {}
    ensures r in s && forall x :: x in s ==> r <= x
  {
    LeastExists(s);
    var m :| m in s && forall x :: x in s ==> m <= x;
    m
  }

  lemma {:induction false} LeastExists(s: set<nat>)
    requires s != {}
    ensures exists m :: m in s && forall x :: x in s ==> m <= x
  {
    var m :| m in s;
    while exists x :: x in s && x < m
      invariant m in s
      decreases m
    {
      var x :| x in s && x < m;
      m := x;
    }
    forall x | x in s ensures m <= x {
    }
  }

  class FragmentCollector {
    var fragments: map<nat, seq<Byte>>
    var finalEnd: Option<nat>
    var status: Option<nat>
    var associd: Option<nat>

    function View(): Collector
      reads this
    {
      Collector(fragments, finalEnd, status, associd)
    }

    constructor ()
      ensures View() == EMPTY
    {
      fragments, finalEnd, status, associd := map[], None, None, None;
    }

    /** Compares the overlap with every stored fragment, in key order. */
    method FindConflict(offset: nat, data: seq<Byte>) returns (conflict: bool)
      requires Inv(View()) && offset + |data| <= U16
      ensures conflict <==> Contradicts(fragments, offset, data)
    {
      var todo := fragments.Keys;
      ghost var seen := {};
      while todo != {}
        invariant todo + seen == fragments.Keys
        invariant forall off :: off in seen ==> Agree(fragments, off, offset, data)
        decreases |todo|
      {
        var off: nat := Least(todo);
        var existing := fragments[off];
        var end := off + |existing|;
        if offset < end && offset + |data| > off {
          var start := if offset < off then off else offset;
          var stop := if offset + |data| < end then offset + |data| else end;
          if stop > start && existing[start - off..stop - off] != data[start - offset..stop - offset] {
            DifferentSlices(fragments, off, offset, data, start, stop);
            return true;
          }
          if stop > start {
            SameSlices(fragments, off, offset, data, start, stop);
          }
        }
        todo := todo - {off};
        seen := seen + {off};
      }
      AllAgree(fragments, offset, data);
      conflict := false;
    }

    /** Status and association ID must be those of the first fragment. */
    method CheckMetadata(f: Fragment) returns (failure: Option<Failure>)
      modifies `status, `associd
      ensures failure.None? ==> View() == Record(old(View()), f)
      ensures failure.None? <==>
                (old(status).None? || old(status) == Some(f.status))
                    && (old(associd).None? || old(associd) == Some(f.associd))
      ensures failure.Some? ==>
                if old(status).Some? && old(status) != Some(f.status)
                then failure.value == InconsistentStatus && View() == old(View())
                else failure.value == InconsistentAssocid && View() == Record(old(View()), f)
    {
      if status.Some? {
        if f.status != status.value {
          return Some(InconsistentStatus);
        }
      } else {
        status := Some(f.status);
      }
      if associd.Some? {
        if f.associd != associd.value {
          return Some(InconsistentAssocid);
        }
      } else {
        associd := Some(f.associd);
      }
      failure := None;
    }

    method CheckFragment(f: Fragment) returns (failure: Option<Failure>)
      requires Inv(View()) && |f.data| == f.count
      ensures failure == Check(View(), f)
    {
      if f.offset + f.count > U16 {
        return Some(Overflow);
      }
      var conflict := FindConflict(f.offset, f.data);
      if conflict {
        return Some(Conflict);
      }
      if finalEnd.Some? && f.offset + f.count > finalEnd.value {
        return Some(BeyondExtent);
      }
      if f.offset in fragments && |f.data| < |fragments[f.offset]| {
        return Some(Shrinking);
      }
      failure := None;
    }

    method SetExtent(f: Fragment) returns (failure: Option<Failure>)
      requires !f.more
      modifies `finalEnd
      ensures failure.None? ==> finalEnd == Some(f.offset + f.count)
      ensures failure.None? && old(finalEnd).None? ==> AllWithin(fragments, f.offset + f.count)
      ensures failure.None? && old(finalEnd).Some? ==> finalEnd == old(finalEnd)
      ensures failure.Some? ==>
                && finalEnd == old(finalEnd) != Some(f.offset + f.count)
                && failure == Some(if finalEnd.Some? then InconsistentExtent else ExceedsNewExtent)
                && (finalEnd.None? ==> !AllWithin(fragments, f.offset + f.count))
    {
      var end := f.offset + f.count;
      if finalEnd.Some? {
        return if end != finalEnd.value then Some(InconsistentExtent) else None;
      }
      var within := FitsWithin(end);
      if !within {
        return Some(ExceedsNewExtent);
      }
      finalEnd := Some(end);
      failure := None;
    }

    method AddFragment(f: Fragment) returns (r: Outcome<bool>)
      requires Inv(View())
      modifies this
      ensures (View(), r) == Add(old(View()), f)
      ensures Inv(View())
    {
      AddKeeps(View(), f);
      if |f.data| != f.count {
        return Err(CountMismatch);
      }
      var failure := CheckMetadata(f);
      if failure.Some? {
        return Err(failure.value);
      }
      failure := CheckFragment(f);
      if failure.Some? {
        return Err(failure.value);
      }
      StoreKeeps(View(), f);
      fragments := fragments[f.offset := f.data];
      if !f.more {
        failure := SetExtent(f);
        if failure.Some? {
          return Err(failure.value);
        }
      }
      var complete := Complete();
      r := Ok(complete);
    }

    method FitsWithin(end: nat) returns (within: bool)
      ensures within <==> AllWithin(fragments, end)
    {
      var todo := fragments.Keys;
      while todo != {}
        invariant todo <= fragments.Keys
        invariant forall off :: off in fragments && off !in todo ==> off + |fragments[off]| <= end
        decreases |todo|
      {
        var off: nat := Least(todo);
        if off + |fragments[off]| > end {
          return false;
        }
        todo := todo - {off};
      }
      within := true;
    }

    /** One pass over the fragments in key order, extending the covered prefix. */
    method Complete() returns (complete: bool)
      requires Inv(View())
      ensures complete <==> IsComplete(View())
    {
      if finalEnd.None? {
        return false;
      }
      var end := finalEnd.value;
      if end == 0 {
        return true;
      }
      var coveredEnd := 0;
      var todo := fragments.Keys;
      while todo != {}
        invariant todo <= fragments.Keys && coveredEnd <= end
        invariant forall p :: 0 <= p < coveredEnd ==> Covered(fragments, p)
        invariant forall off :: off in fragments && off !in todo ==> off + |fragments[off]| <= coveredEnd
        decreases |todo|
      {
        var off: nat := Least(todo);
        if off > coveredEnd {
          assert !Covered(fragments, coveredEnd);
          return false;
        }
        var fragEnd := off + |fragments[off]|;
        if fragEnd > coveredEnd {
          assert forall p: nat :: coveredEnd <= p < fragEnd ==> Covered(fragments, p);
          coveredEnd := fragEnd;
        }
        todo := todo - {off};
      }
      assert coveredEnd < end ==> !Covered(fragments, coveredEnd);
      complete := coveredEnd == end;
    }

    method Assemble() returns (r: Outcome<seq<Byte>>)
      requires Inv(View())
      ensures r.Err? <==> !IsComplete(View())
      ensures r.Err? ==> r.failure == Incomplete
      ensures r.Ok? ==> Assembled(View(), r.value)
    {
      var complete := Complete();
      if !complete {
        return Err(Incomplete);
      }
      var result := new Byte[finalEnd.value](_ => 0);
      var todo := fragments.Keys;
      while todo != {}
        invariant todo <= fragments.Keys
        invariant forall off, i :: off in fragments && off !in todo && 0 <= i < |fragments[off]| ==>
                    result[off + i] == fragments[off][i]
        decreases |todo|
      {
        var off: nat := Least(todo);
        CopySlice(result, off);
        todo := todo - {off};
      }
      FilledIsAssembled(View(), result[..]);
      r := Ok(result[..]);
    }

    /** Copies one fragment into place. Bytes already placed by others are rewritten unchanged. */
    method CopySlice(result: array<Byte>, off: nat)
      requires Inv(View()) && finalEnd == Some(result.Length) && off in fragments
      modifies result
      ensures forall i :: 0 <= i < |fragments[off]| ==> result[off + i] == fragments[off][i]
      ensures forall o, i :: o in fragments && 0 <= i < |fragments[o]| && old(result[o + i]) == fragments[o][i] ==>
                result[o + i] == fragments[o][i]
    {
      var data := fragments[off];
      ghost var before := result[..];
      for k := 0 to |data|
        modifies result
        invariant forall p :: 0 <= p < result.Length && !(off <= p < off + k) ==> result[p] == before[p]
        invariant forall i :: 0 <= i < k ==> result[off + i] == data[i]
      {
        result[off + k] := data[k];
      }
      forall o, i | o in fragments && 0 <= i < |fragments[o]| && before[o + i] == fragments[o][i]
        ensures result[o + i] == fragments[o][i]
      {
        if off <= o + i < off + |data| {
          var j := o + i - off;
          assert (o + i, fragments[o][i]) in Image(fragments);
          assert (off + j, data[j]) in Image(fragments);
        }
      }
    }
  }

  // ---------- Overlap comparison ----------

  /** Stored fragment `off` and the piece hold the same byte wherever they overlap. */
  ghost predicate Agree(fs: map<nat, seq<Byte>>, off: nat, offset: nat, data: seq<Byte>)
    requires off in fs
  {
    forall i, j :: 0 <= i < |fs[off]| && 0 <= j < |data| && off + i == offset + j ==> fs[off][i] == data[j]
  }

  lemma AllAgree(fs: map<nat, seq<Byte>>, offset: nat, data: seq<Byte>)
    requires forall off :: off in fs ==> Agree(fs, off, offset, data)
    ensures !Contradicts(fs, offset, data)
  {
    forall x, y | x in Image(fs) && y in Piece(offset, data) && x.0 == y.0 ensures x.1 == y.1 {
      var off, i :| off in fs && 0 <= i < |fs[off]| && x == (off + i, fs[off][i]);
      var j :| 0 <= j < |data| && y == (offset + j, data[j]);
      assert Agree(fs, off, offset, data);
    }
  }

  lemma SameSlices(fs: map<nat, seq<Byte>>, off: nat, offset: nat, data: seq<Byte>, start: nat, stop: nat)
    requires off in fs && start < stop
    requires start == (if offset < off then off else offset)
    requires stop == (if offset + |data| < off + |fs[off]| then offset + |data| else off + |fs[off]|)
    requires fs[off][start - off..stop - off] == data[start - offset..stop - offset]
    ensures Agree(fs, off, offset, data)
  {
    var a, b := fs[off][start - off..stop - off], data[start - offset..stop - offset];
    forall i, j | 0 <= i < |fs[off]| && 0 <= j < |data| && off + i == offset + j ensures fs[off][i] == data[j] {
      assert a[off + i - start] == fs[off][i] && b[offset + j - start] == data[j];
    }
  }

  lemma DifferentSlices(fs: map<nat, seq<Byte>>, off: nat, offset: nat, data: seq<Byte>, start: nat, stop: nat)
    requires off in fs && off <= start < stop <= off + |fs[off]| && offset <= start && stop <= offset + |data|
    requires fs[off][start - off..stop - off] != data[start - offset..stop - offset]
    ensures Contradicts(fs, offset, data)
  {
    var a, b := fs[off][start - off..stop - off], data[start - offset..stop - offset];
    assert |a| == |b|;
    var k :| 0 <= k < |a| && a[k] != b[k];
    var i, j := start - off + k, start - offset + k;
    assert (off + i, fs[off][i]) in Image(fs);
    assert (offset + j, data[j]) in Piece(offset, data);
  }

  // ---------- Delivery of a whole message ----------

  /** Cut points of a message, ascending from 0 to its length. Pieces may be empty. */
  ghost predicate Cuts(m: seq<Byte>, cuts: seq<nat>) {
    && |cuts| >= 2 && cuts[0] == 0 && cuts[|cuts|-1] == |m| <= U16
    && (forall i, j :: 0 <= i < j < |cuts| ==> cuts[i] <= cuts[j])
  }

  /** Piece i of the message. */
  function Cut(m: seq<Byte>, cuts: seq<nat>, i: nat): seq<Byte>
    requires i + 1 < |cuts|
  {
    if cuts[i] <= cuts[i+1] <= |m| then m[cuts[i]..cuts[i+1]] else []
  }

  /** The fragment that carries piece i. */
  function PieceFragment(m: seq<Byte>, cuts: seq<nat>, i: nat, status: nat, associd: nat): Fragment
    requires i + 1 < |cuts|
  {
    Fragment(cuts[i], |Cut(m, cuts, i)|, Cut(m, cuts, i), i + 2 < |cuts|, status, associd)
  }

  /** Piece i carries bytes. */
  predicate Filled(cuts: seq<nat>, i: nat) {
    i + 1 < |cuts| && cuts[i] < cuts[i+1]
  }

  lemma CutBounds(m: seq<Byte>, cuts: seq<nat>, i: nat)
    requires Cuts(m, cuts) && i + 1 < |cuts|
    ensures cuts[i] <= cuts[i+1] <= |m|
    ensures i + 2 == |cuts| ==> cuts[i+1] == |m|
    ensures |Cut(m, cuts, i)| == cuts[i+1] - cuts[i]
  {
  }

  lemma CutsInjective(m: seq<Byte>, cuts: seq<nat>, i: nat, j: nat)
    requires Cuts(m, cuts) && Filled(cuts, i) && j + 1 < |cuts|
    requires cuts[j] <= cuts[i] < cuts[j+1]
    ensures i == j
  {
  }

  lemma {:induction false} PieceAt(m: seq<Byte>, cuts: seq<nat>, p: nat) returns (i: nat)
    requires Cuts(m, cuts) && p < |m|
    ensures i + 1 < |cuts| && cuts[i] <= p < cuts[i+1] <= |m|
  {
    i := 0;
    while cuts[i+1] <= p
      invariant i + 1 < |cuts| && cuts[i] <= p
      decreases |cuts| - i
    {
      i := i + 1;
    }
    CutBounds(m, cuts, i);
  }

  /** Everything stored is a part of the message, in its place. */
  ghost predicate PartOf(fs: map<nat, seq<Byte>>, m: seq<Byte>) {
    forall off :: off in fs ==> off + |fs[off]| <= |m| && fs[off] == m[off..off + |fs[off]|]
  }

  lemma PartInMessage(fs: map<nat, seq<Byte>>, m: seq<Byte>)
    requires PartOf(fs, m)
    ensures Image(fs) <= Piece(0, m)
  {
    forall x | x in Image(fs) ensures x in Piece(0, m) {
      var off, k :| off in fs && 0 <= k < |fs[off]| && x == (off + k, fs[off][k]);
      assert x == (0 + (off + k), m[off + k]);
    }
  }

  lemma PartsAgree(fs: map<nat, seq<Byte>>, m: seq<Byte>, offset: nat, n: nat)
    requires PartOf(fs, m) && offset + n <= |m|
    ensures !Contradicts(fs, offset, m[offset..offset + n])
  {
    var data := m[offset..offset + n];
    forall off | off in fs ensures Agree(fs, off, offset, data) {
      assert fs[off] == m[off..off + |fs[off]|];
      forall i, j | 0 <= i < |fs[off]| && 0 <= j < |data| && off + i == offset + j ensures fs[off][i] == data[j] {
        assert fs[off][i] == m[off + i];
      }
    }
    AllAgree(fs, offset, data);
  }

  /** Of the pieces with bytes those in `got` are held, and nothing of the others. */
  ghost predicate Holds(fs: map<nat, seq<Byte>>, m: seq<Byte>, cuts: seq<nat>, got: set<nat>) {
    && PartOf(fs, m)
    && (forall i: nat :: Filled(cuts, i) && i in got ==> cuts[i] in fs && fs[cuts[i]] == Cut(m, cuts, i))
    && (forall i: nat :: Filled(cuts, i) && i !in got ==> !Covered(fs, cuts[i]))
  }

  /** The collector once the pieces in `got` have arrived. */
  ghost predicate Received(c: Collector, m: seq<Byte>, cuts: seq<nat>, got: set<nat>, status: nat, associd: nat) {
    && Holds(c.fragments, m, cuts, got)
    && c.finalEnd == (if |cuts| - 2 in got then Some(|m|) else None)
    && c.status == (if got == {} then None else Some(status))
    && c.associd == (if got == {} then None else Some(associd))
  }

  /** All pieces that matter have arrived: those with bytes, and the last. */
  ghost predicate AllIn(cuts: seq<nat>, got: set<nat>) {
    forall i :: 0 <= i < |cuts| - 1 && (Filled(cuts, i) || i == |cuts| - 2) ==> i in got
  }

  lemma AllMeansCovered(fs: map<nat, seq<Byte>>, m: seq<Byte>, cuts: seq<nat>, got: set<nat>, p: nat)
    requires Cuts(m, cuts) && Holds(fs, m, cuts, got) && p < |m| && AllIn(cuts, got)
    ensures Covered(fs, p)
  {
    var i := PieceAt(m, cuts, p);
    assert Filled(cuts, i) && i in got;
    CutBounds(m, cuts, i);
  }

  /** Completion means that every piece that matters has arrived. */
  lemma CompleteWhenAll(c: Collector, m: seq<Byte>, cuts: seq<nat>, got: set<nat>, status: nat, associd: nat)
    requires Cuts(m, cuts) && Received(c, m, cuts, got, status, associd)
    ensures IsComplete(c) <==> AllIn(cuts, got)
  {
    if AllIn(cuts, got) {
      forall p: nat | p < |m| ensures Covered(c.fragments, p) {
        AllMeansCovered(c.fragments, m, cuts, got, p);
      }
    } else if |cuts| - 2 in got {
      var i :| 0 <= i < |cuts| - 1 && Filled(cuts, i) && i !in got;
      CutBounds(m, cuts, i);
      assert !Covered(c.fragments, cuts[i]);
    }
  }

  /** An empty piece, and the piece with bytes at its place has arrived before. */
  ghost predicate Late(cuts: seq<nat>, got: set<nat>, i: nat) {
    i + 1 < |cuts| && !Filled(cuts, i) && exists j :: j in got && Filled(cuts, j) && cuts[j] == cuts[i]
  }

  lemma OneMorePart(fs: map<nat, seq<Byte>>, m: seq<Byte>, cuts: seq<nat>, i: nat)
    requires Cuts(m, cuts) && PartOf(fs, m) && i + 1 < |cuts|
    ensures PartOf(fs[cuts[i] := Cut(m, cuts, i)], m)
  {
    CutBounds(m, cuts, i);
  }

  lemma HoldsOneMore(fs: map<nat, seq<Byte>>, m: seq<Byte>, cuts: seq<nat>, got: set<nat>, i: nat)
    requires Cuts(m, cuts) && Holds(fs, m, cuts, got) && i + 1 < |cuts| && !Late(cuts, got, i)
    ensures Holds(fs[cuts[i] := Cut(m, cuts, i)], m, cuts, got + {i})
  {
    var gs := fs[cuts[i] := Cut(m, cuts, i)];
    CutBounds(m, cuts, i);
    OneMorePart(fs, m, cuts, i);
    forall j: nat | Filled(cuts, j) && j in got + {i} ensures cuts[j] in gs && gs[cuts[j]] == Cut(m, cuts, j) {
      if cuts[j] == cuts[i] && Filled(cuts, i) {
        CutsInjective(m, cuts, i, j);
      }
    }
    forall j: nat | Filled(cuts, j) && j !in got + {i} ensures !Covered(gs, cuts[j]) {
      assert !Covered(fs, cuts[j]);
      if cuts[i] <= cuts[j] < cuts[i+1] {
        CutsInjective(m, cuts, j, i);
      }
    }
  }

  /** What is stored at the place of a piece: the piece with bytes there, if it has arrived. */
  lemma StoredAt(fs: map<nat, seq<Byte>>, m: seq<Byte>, cuts: seq<nat>, got: set<nat>, i: nat)
    requires Cuts(m, cuts) && Holds(fs, m, cuts, got) && i + 1 < |cuts| && cuts[i] in fs
    ensures Filled(cuts, i) ==> |fs[cuts[i]]| <= |Cut(m, cuts, i)|
    ensures !Filled(cuts, i) ==> (fs[cuts[i]] != [] <==> Late(cuts, got, i))
  {
    CutBounds(m, cuts, i);
    if Filled(cuts, i) && i !in got {
      assert !Covered(fs, cuts[i]);
    } else if !Filled(cuts, i) && fs[cuts[i]] != [] {
      assert Covered(fs, cuts[i]);
      var j := PieceAt(m, cuts, cuts[i]);
      assert Filled(cuts, j) && cuts[j] == cuts[i] && j in got;
    } else if Late(cuts, got, i) {
      var j :| j in got && Filled(cuts, j) && cuts[j] == cuts[i];
      CutBounds(m, cuts, j);
    }
  }

  lemma LateIsStored(fs: map<nat, seq<Byte>>, m: seq<Byte>, cuts: seq<nat>, got: set<nat>, i: nat)
    requires Holds(fs, m, cuts, got) && Late(cuts, got, i)
    ensures cuts[i] in fs
  {
  }

  /** A piece of the message passes every check, unless it is late. */
  lemma PieceChecks(c: Collector, m: seq<Byte>, cuts: seq<nat>, got: set<nat>, i: nat, status: nat, associd: nat)
    requires Cuts(m, cuts) && Received(c, m, cuts, got, status, associd) && i + 1 < |cuts|
    ensures Check(c, PieceFragment(m, cuts, i, status, associd)) == if Late(cuts, got, i) then Some(Shrinking) else None
  {
    var at, n := cuts[i], |Cut(m, cuts, i)|;
    CutBounds(m, cuts, i);
    assert Cut(m, cuts, i) == m[at..at + n];
    PartsAgree(c.fragments, m, at, n);
    if Late(cuts, got, i) {
      LateIsStored(c.fragments, m, cuts, got, i);
    }
    if at in c.fragments {
      StoredAt(c.fragments, m, cuts, got, i);
    }
  }

  lemma PartWithin(fs: map<nat, seq<Byte>>, m: seq<Byte>)
    requires PartOf(fs, m)
    ensures AllWithin(fs, |m|)
  {
  }

  lemma AddIsFinish(c: Collector, f: Fragment)
    requires |f.data| == f.count && Check(c, f) == None
    requires (c.status.None? || c.status.value == f.status) && (c.associd.None? || c.associd.value == f.associd)
    ensures Record(c, f) == c.(status := Some(f.status), associd := Some(f.associd))
    ensures Add(c, f) == Finish(Store(c.(status := Some(f.status), associd := Some(f.associd)), f), f)
  {
    assert Check(Record(c, f), f) == Check(c, f);
  }

  lemma FinishShape(e: Collector, f: Fragment, len: nat)
    requires f.more || (f.offset + f.count == len && AllWithin(e.fragments, len)
        && (e.finalEnd.None? || e.finalEnd.value == len))
    ensures var (d, r) := Finish(e, f);
            d == (if f.more then e else e.(finalEnd := Some(len))) && r.Ok? && (r.value <==> IsComplete(d))
  {
  }

  lemma FinishPiece(e: Collector, m: seq<Byte>, cuts: seq<nat>, got: set<nat>, i: nat, status: nat, associd: nat)
    requires Cuts(m, cuts) && i + 1 < |cuts| && Holds(e.fragments, m, cuts, got + {i})
    requires e.status == Some(status) && e.associd == Some(associd)
    requires e.finalEnd == if |cuts| - 2 in got then Some(|m|) else None
    ensures var (d, r) := Finish(e, PieceFragment(m, cuts, i, status, associd));
            Received(d, m, cuts, got + {i}, status, associd) && r.Ok? && (r.value <==> IsComplete(d))
  {
    CutBounds(m, cuts, i);
    PartWithin(e.fragments, m);
    FinishShape(e, PieceFragment(m, cuts, i, status, associd), |m|);
    assert i in got + {i};
  }

  /** One more piece, new or repeated, is accepted, unless it is late; then nothing but the
      metadata is stored. */
  lemma DeliverOne(c: Collector, m: seq<Byte>, cuts: seq<nat>, got: set<nat>, i: nat, status: nat, associd: nat)
    requires Cuts(m, cuts) && Received(c, m, cuts, got, status, associd) && i + 1 < |cuts|
    ensures var (d, r) := Add(c, PieceFragment(m, cuts, i, status, associd));
            && Received(d, m, cuts, got + {i}, status, associd)
            && (if Late(cuts, got, i) then r == Err(Shrinking) else r.Ok? && (r.value <==> IsComplete(d)))
  {
    var f := PieceFragment(m, cuts, i, status, associd);
    PieceChecks(c, m, cuts, got, i, status, associd);
    if Late(cuts, got, i) {
      LatePiece(c, m, cuts, got, i, status, associd);
    } else {
      HoldsOneMore(c.fragments, m, cuts, got, i);
      AddIsFinish(c, f);
      FinishPiece(Store(c.(status := Some(f.status), associd := Some(f.associd)), f), m, cuts, got, i, status, associd);
    }
  }

  lemma LatePiece(c: Collector, m: seq<Byte>, cuts: seq<nat>, got: set<nat>, i: nat, status: nat, associd: nat)
    requires Cuts(m, cuts) && Received(c, m, cuts, got, status, associd) && Late(cuts, got, i)
    requires Check(c, PieceFragment(m, cuts, i, status, associd)) == Some(Shrinking)
    ensures var (d, r) := Add(c, PieceFragment(m, cuts, i, status, associd));
            Received(d, m, cuts, got + {i}, status, associd) && r == Err(Shrinking)
  {
    var f := PieceFragment(m, cuts, i, status, associd);
    LateIsNotLast(m, cuts, got, i);
    assert Record(c, f) == c;
    LateReceived(c, m, cuts, got, i, status, associd);
  }

  lemma LateIsNotLast(m: seq<Byte>, cuts: seq<nat>, got: set<nat>, i: nat)
    requires Cuts(m, cuts) && Late(cuts, got, i)
    ensures i != |cuts| - 2
  {
    var j :| j in got && Filled(cuts, j) && cuts[j] == cuts[i];
    CutBounds(m, cuts, j);
    CutBounds(m, cuts, i);
  }

  lemma LateReceived(c: Collector, m: seq<Byte>, cuts: seq<nat>, got: set<nat>, i: nat, status: nat, associd: nat)
    requires Received(c, m, cuts, got, status, associd) && i + 1 < |cuts| && i != |cuts| - 2 && !Filled(cuts, i)
        && got != {}
    ensures Received(c, m, cuts, got + {i}, status, associd)
  {
  }

  /** And completion is reported exactly when the last piece that matters has arrived. */
  lemma DeliverOneReports(c: Collector, m: seq<Byte>, cuts: seq<nat>, got: set<nat>, i: nat, status: nat, associd: nat)
    requires Cuts(m, cuts) && Received(c, m, cuts, got, status, associd) && i + 1 < |cuts|
    ensures var r := Add(c, PieceFragment(m, cuts, i, status, associd)).1;
            if Late(cuts, got, i) then r == Err(Shrinking) else r.Ok? && (r.value <==> AllIn(cuts, got + {i}))
  {
    DeliverOne(c, m, cuts, got, i, status, associd);
    CompleteWhenAll(Add(c, PieceFragment(m, cuts, i, status, associd)).0, m, cuts, got + {i}, status, associd);
  }

  function Elements(order: seq<nat>): set<nat> {
    set i | i in order
  }

  /** Do the numbers name pieces? */
  predicate Indices(order: seq<nat>, cuts: seq<nat>) {
    forall k :: 0 <= k < |order| ==> order[k] + 1 < |cuts|
  }

  /** The collector after the pieces named by `order` have been delivered in that order. */
  ghost function Deliver(m: seq<Byte>, cuts: seq<nat>, order: seq<nat>, status: nat, associd: nat): Collector
    requires Indices(order, cuts)
  {
    if order == [] then EMPTY
    else
      Add(Deliver(m, cuts, order[..|order|-1], status, associd),
          PieceFragment(m, cuts, order[|order|-1], status, associd)).0
  }

  lemma {:induction false} DeliveryState(m: seq<Byte>, cuts: seq<nat>, order: seq<nat>, status: nat, associd: nat)
    requires Cuts(m, cuts) && Indices(order, cuts)
    ensures Received(Deliver(m, cuts, order, status, associd), m, cuts, Elements(order), status, associd)
  {
    if order != [] {
      var init, last := order[..|order|-1], order[|order|-1];
      ElementsSnoc(init, last);
      assert order == init + [last];
      DeliveryState(m, cuts, init, status, associd);
      DeliverOne(Deliver(m, cuts, init, status, associd), m, cuts, Elements(init), last, status, associd);
    }
  }

  lemma ElementsSnoc(order: seq<nat>, next: nat)
    ensures Elements(order + [next]) == Elements(order) + {next}
  {
  }

  /** Any order, any repeats: the next piece is accepted unless it is late, and completion is
      reported exactly when every piece with bytes and the last piece have arrived. */
  lemma {:induction false} Delivery(m: seq<Byte>, cuts: seq<nat>, order: seq<nat>, next: nat, status: nat, associd: nat)
    requires Cuts(m, cuts) && Indices(order, cuts) && next + 1 < |cuts|
    ensures var r := Add(Deliver(m, cuts, order, status, associd), PieceFragment(m, cuts, next, status, associd)).1;
            if Late(cuts, Elements(order), next) then r == Err(Shrinking)
            else r.Ok? && (r.value <==> AllIn(cuts, Elements(order) + {next}))
  {
    DeliveryState(m, cuts, order, status, associd);
    DeliverOneReports(Deliver(m, cuts, order, status, associd), m, cuts, Elements(order), next, status, associd);
  }

  /** In particular a partition without empty pieces is always accepted, and so is one whose
      only empty piece is a terminator. */
  lemma NeverLate(m: seq<Byte>, cuts: seq<nat>, got: set<nat>, i: nat)
    requires Cuts(m, cuts) && i + 1 < |cuts| && (Filled(cuts, i) || cuts[i] == |m|)
    ensures !Late(cuts, got, i)
  {
    if Late(cuts, got, i) {
      var j :| j in got && Filled(cuts, j) && cuts[j] == cuts[i];
      CutBounds(m, cuts, j);
    }
  }

  /** Once every piece that matters has arrived, what is assembled is the message. */
  lemma {:induction false} DeliveredMessage(m: seq<Byte>, cuts: seq<nat>, order: seq<nat>, status: nat, associd: nat,
      out: seq<Byte>)
    requires Cuts(m, cuts) && Indices(order, cuts) && AllIn(cuts, Elements(order))
    requires Assembled(Deliver(m, cuts, order, status, associd), out)
    ensures out == m
  {
    DeliveryState(m, cuts, order, status, associd);
    var c := Deliver(m, cuts, order, status, associd);
    PartInMessage(c.fragments, m);
    assert |cuts| - 2 in Elements(order);
    forall i | 0 <= i < |m| ensures out[i] == m[i] {
      assert (0 + i, out[i]) in Piece(0, out);
    }
  }
}
