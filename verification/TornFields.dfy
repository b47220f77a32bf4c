/**
 A field of several registers is staged register by register, each under its own
 lock, so a flush decided between two of them takes part of the field.
 */
module TornFields {
  import opened Codec
  import opened Options
  import opened ScalarCodec
  import opened FieldLens
  import opened SinkWindow
  import opened SinkWindowSystem

  /** The first `i` registers are the new ones. */
  function Mixed(was: seq<bv16>, words: seq<bv16>, i: nat): (r: seq<bv16>)
    requires |was| == |words| && i <= |words|
    ensures |r| == |words|
  {
    words[..i] + was[i..]
  }

  /**
   The stages of a run that fall on the field are those of one write of it, from
   register `i` up to `j`; everything else may happen in between.
   */
  ghost predicate Staging(f: Field, words: seq<bv16>, acts: seq<Action>, i: nat, j: nat)
    decreases |acts|
  {
    if acts == [] then i == j
    else if acts[0].Stage? && Covers(f, acts[0].address) then
      && i < |words|
      && acts[0] == Stage(f.address + i, words[i], 0xFFFF)
      && Staging(f, words, acts[1..], i + 1, j)
    else Staging(f, words, acts[1..], i, j)
  }

  /** The writer stages the registers of such a field whole. */
  lemma WholeWords(f: Field, k: nat)
    requires Legal(f) && Words(f) > 1 && k < Words(f)
    ensures MaskOf(f, k, Words(f)) == 0xFFFF
  {
  }

  lemma StageOne(c: Config, w: Image, f: Field, was: seq<bv16>, words: seq<bv16>, i: nat, now: nat)
    requires |w.snapshot| == c.size && Inside(c.startAddress, c.size, f) && |was| == |words| == Words(f) && i < Words(f)
    requires Slice(c.startAddress, w.snapshot, f) == Mixed(was, words, i)
    ensures var t := StageRegister(c, w, f.address + i, words[i], 0xFFFF, now).0;
            |t.snapshot| == c.size && Slice(c.startAddress, t.snapshot, f) == Mixed(was, words, i + 1)
  {
    var p := f.address + i - c.startAddress;
    MergeLaws(w.snapshot[p], words[i], 0);
    hide Merge;
    var t := StageRegister(c, w, f.address + i, words[i], 0xFFFF, now).0;
    assert t.snapshot == w.snapshot[p := words[i]];
    hide StageRegister;
    var a, b := Slice(c.startAddress, w.snapshot, f), Slice(c.startAddress, t.snapshot, f);
    assert b == a[i := words[i]];
  }

  lemma StageElse(c: Config, w: Image, f: Field, address: int, value: bv16, mask: bv16, now: nat)
    requires |w.snapshot| == c.size && Inside(c.startAddress, c.size, f) && !Covers(f, address)
    ensures var t := StageRegister(c, w, address, value, mask, now).0;
            |t.snapshot| == c.size && Slice(c.startAddress, t.snapshot, f) == Slice(c.startAddress, w.snapshot, f)
  {
    hide Merge;
  }

  lemma StepShows(c: Config, y: Sys, a: Action, f: Field)
    requires |y.w.snapshot| == c.size && Enabled(c, y, a) && Inside(c.startAddress, c.size, f)
    requires !(a.Stage? && Covers(f, a.address))
    ensures var z := Next(c, y, a);
            |z.w.snapshot| == c.size && Slice(c.startAddress, z.w.snapshot, f) == Slice(c.startAddress, y.w.snapshot, f)
  {
    if a.Stage? { StageElse(c, y.w, f, a.address, a.value, a.mask, y.now); }
    hide StageRegister, FlushDue, Merge;
  }

  /** While a write of the field is under way the image has its first registers new and the others old. */
  lemma {:induction false} StagingShows(c: Config, y: Sys, acts: seq<Action>, f: Field, was: seq<bv16>, words: seq<bv16>, i: nat, j: nat)
    requires Run(c, y, acts) && |y.w.snapshot| == c.size && Inside(c.startAddress, c.size, f)
    requires |was| == |words| == Words(f) && i <= Words(f) && Staging(f, words, acts, i, j)
    requires Slice(c.startAddress, y.w.snapshot, f) == Mixed(was, words, i)
    ensures j <= Words(f) && |Exec(c, y, acts).w.snapshot| == c.size
    ensures Slice(c.startAddress, Exec(c, y, acts).w.snapshot, f) == Mixed(was, words, j)
    decreases |acts|
  {
    if acts != [] {
      var z := Next(c, y, acts[0]);
      if acts[0].Stage? && Covers(f, acts[0].address) {
        StageOne(c, y.w, f, was, words, i, y.now);
        hide Slice, Mixed, StageRegister, Covers;
        StagingShows(c, z, acts[1..], f, was, words, i + 1, j);
      } else {
        StepShows(c, y, acts[0], f);
        hide Slice, Mixed, Next, Enabled, Covers;
        StagingShows(c, z, acts[1..], f, was, words, i, j);
      }
    }
  }

  // ---------------------------------------------------------------- what a flush carries

  /** All of the old registers or all of the new. */
  predicate Whole(was: seq<bv16>, words: seq<bv16>, raw: seq<bv16>)
  {
    raw == was || raw == words
  }

  lemma MixedWhole(was: seq<bv16>, words: seq<bv16>, j: nat)
    requires |was| == |words| && j <= |words|
    ensures Whole(was, words, Mixed(was, words, j)) <==> words[..j] == was[..j] || words[j..] == was[j..]
  {
    var m := Mixed(was, words, j);
    assert was == was[..j] + was[j..] && words == words[..j] + words[j..];
    assert m[..j] == words[..j] && m[j..] == was[j..];
  }

  /**
   A flush decided while the first `j` registers of a field are staged takes exactly
   these new and the others old. It carries the field whole if and only if the registers
   staged so far, or those still to come, do not change it.
   */
  lemma DecidedWhole(c: Config, y: Sys, acts: seq<Action>, f: Field, words: seq<bv16>, j: nat, i: nat, reading: nat)
    requires Run(c, y, acts) && |y.w.snapshot| == c.size && Inside(c.startAddress, c.size, f)
    requires |words| == Words(f) && Staging(f, words, acts, 0, j)
    requires var x := Exec(c, y, acts); Enabled(c, x, Decide(i, reading)) && FlushDue(c, x.w, reading)
    ensures var was := Slice(c.startAddress, y.w.snapshot, f);
            var x := Exec(c, y, acts);
            && j <= Words(f) && |x.w.snapshot| == c.size
            && var d := Next(c, x, Decide(i, reading)).workers[i];
               && d.Decided? && |d.values| == c.size
               && Slice(c.startAddress, d.values, f) == Mixed(was, words, j)
               && (Whole(was, words, Slice(c.startAddress, d.values, f))
                   <==> words[..j] == was[..j] || words[j..] == was[j..])
  {
    var was := Slice(c.startAddress, y.w.snapshot, f);
    assert Mixed(was, words, 0) == was;
    StagingShows(c, y, acts, f, was, words, 0, j);
    MixedWhole(was, words, j);
    hide Run, Exec, Slice, Mixed, FlushDue, Staging;
  }

  /** Once the field is staged in full, a clean window's last acknowledged image carries it whole. */
  lemma CleanIsWhole(c: Config, y: Sys, acts: seq<Action>, f: Field, words: seq<bv16>)
    requires Inv(c, y) && Run(c, y, acts) && Inside(c.startAddress, c.size, f)
    requires |words| == Words(f) && Staging(f, words, acts, 0, Words(f)) && !Exec(c, y, acts).w.dirty
    ensures var sent := Acknowledged(c, Exec(c, y, acts).acks);
            |sent| == c.size && Slice(c.startAddress, sent, f) == words
  {
    var was := Slice(c.startAddress, y.w.snapshot, f);
    assert Mixed(was, words, 0) == was && Mixed(was, words, Words(f)) == words;
    StagingShows(c, y, acts, f, was, words, 0, Words(f));
    RunInv(c, y, acts);
    hide Run, Exec, Slice, Mixed, Staging, WriteOk, OneHolder, Honoured, Acknowledged;
  }

  // ---------------------------------------------------------------- as a value

  lemma ExtendInjective(t: ScalarType, x: bv64, z: bv64)
    requires IsInteger(t) && AtMost(x, Limit(RegisterCount(t))) && AtMost(z, Limit(RegisterCount(t))) && Extend(t, x) == Extend(t, z)
    ensures x == z
  {
    hide Extend, InRange, And, Limit, AtMost, Negative;
    ExtendKeeps(t, x);
    ExtendKeeps(t, z);
  }

  lemma Unmasked(u: bv64)
    ensures And(u, 0xFFFF_FFFF_FFFF_FFFF) == u
  {
  }

  /** Different registers of an untransformed number are different numbers. */
  lemma DecodeInjective(f: Field, a: seq<bv16>, b: seq<bv16>)
    requires Legal(f) && IsInteger(f.kind) && f.ref.shift == 0 && f.ref.mask == 0xFFFF_FFFF_FFFF_FFFF
    requires |a| == |b| == Words(f) && Decode(f.kind, a, f.ref) == Decode(f.kind, b, f.ref)
    ensures a == b
  {
    var rc, w := Words(f), f.ref.wordOrder;
    var x, z := UnpackInt(a, rc, w), UnpackInt(b, rc, w);
    hide UnpackInt, PackInt, Extend, And, AtMost, Limit;
    assert Down(x, 0) == x && Down(z, 0) == z;
    Unmasked(x);
    Unmasked(z);
    FieldFits(a, f.ref, rc);
    FieldFits(b, f.ref, rc);
    ExtendInjective(f.kind, x, z);
    PackUnpack(a, rc, w);
    PackUnpack(b, rc, w);
    assert a[..rc] == a && b[..rc] == b;
  }

  /**
   For an untransformed number, as multi-register sinks of an accepted configuration
   are, the decided image shows the old or the new value exactly when it carries the
   field whole.
   */
  lemma DecidedValue(c: Config, y: Sys, acts: seq<Action>, f: Field, v: Variant, j: nat, i: nat, reading: nat)
    requires Legal(f) && IsInteger(f.kind) && f.ref.shift == 0 && f.ref.mask == 0xFFFF_FFFF_FFFF_FFFF && Accepts(f, v)
    requires Run(c, y, acts) && |y.w.snapshot| == c.size && Inside(c.startAddress, c.size, f)
    requires Staging(f, Encode(f.kind, v, f.ref), acts, 0, j)
    requires var x := Exec(c, y, acts); Enabled(c, x, Decide(i, reading)) && FlushDue(c, x.w, reading)
    ensures var words := Encode(f.kind, v, f.ref);
            var was := Slice(c.startAddress, y.w.snapshot, f);
            var x := Exec(c, y, acts);
            && j <= |words| == |was| && |x.w.snapshot| == c.size
            && var d := Next(c, x, Decide(i, reading)).workers[i];
               && d.Decided? && |d.values| == c.size
               && (Get(c.startAddress, d.values, f) in {Get(c.startAddress, y.w.snapshot, f), Decode(f.kind, words, f.ref)}
                   <==> words[..j] == was[..j] || words[j..] == was[j..])
  {
    var words := Encode(f.kind, v, f.ref);
    EncodeWords(f.kind, v, f.ref);
    DecidedWhole(c, y, acts, f, words, j, i, reading);
    hide Run, Exec, Next, Enabled, Encode, Decode, FlushDue, Staging, Mixed;
    var was := Slice(c.startAddress, y.w.snapshot, f);
    var d := Next(c, Exec(c, y, acts), Decide(i, reading)).workers[i];
    var raw := Slice(c.startAddress, d.values, f);
    if Decode(f.kind, raw, f.ref) == Decode(f.kind, was, f.ref) { DecodeInjective(f, raw, was); }
    if Decode(f.kind, raw, f.ref) == Decode(f.kind, words, f.ref) { DecodeInjective(f, raw, words); }
  }

  /** A torn value: between the two registers of a change from 0 to 0x00010001 the image shows 0x00010000. */
  lemma TornValue()
    ensures Mixed([0, 0], [1, 1], 1) == [1, 0] && !Whole([0, 0], [1, 1], [1, 0])
  {
    var was: seq<bv16> := [0, 0];
    var words: seq<bv16> := [1, 1];
    assert words[..1] == [1] && was[1..] == [0];
    var torn: seq<bv16> := [1, 0];
    assert torn[0] == 1 && torn[1] == 0;
  }
}
