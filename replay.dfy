/**
 * The replay filter of mesh_loadseedfile: after the seed blocks of a
 * detection history have been read, the photons recorded by the replayed
 * detector are kept, their seed blocks compacted to the front in the
 * original order, and their detected weight and time of flight recomputed
 * from the partial paths of the history records.
 *
 * A history record is colcount floats: the detector id in column 0 and
 * the partial path of medium k (1 <= k <= maxmedia) in column 1 + k.
 */
module Replay {
  import opened Common
  import opened Mesh
  import opened Detector

  /** The fields of the history header the loader uses. */
  datatype History = History(savedphoton: nat, seedbyte: nat, colcount: nat, maxmedia: nat, unitinmm: real)

  const MSG_MEDIA: string := "the history file was generated with a different media setting"

  /** A history with saved photons and seed blocks of positive size; any other is ignored. */
  predicate HasSeeds(h: History) {
    h.savedphoton > 0 && h.seedbyte > 0
  }

  /** The partial-path buffer holds savedphoton records, each wide enough for the id and maxmedia path columns. */
  predicate Framed(ppath: seq<real>, h: History) {
    2 + h.maxmedia <= h.colcount && h.savedphoton * h.colcount <= |ppath|
  }

  /** A framed buffer whose media all have a row in the medium table. */
  predicate Loaded(ppath: seq<real>, h: History, med: seq<Medium>) {
    2 + h.maxmedia <= h.colcount && h.savedphoton * h.colcount <= |ppath| && h.maxmedia < |med|
  }

  /** Wide-field replay: a detection pattern and a raster of positive size. */
  predicate Wide(plane: Plane, pattern: Option<seq<real>>) {
    plane.xsize * plane.ysize > 0 && pattern.Some?
  }

  /** In wide-field replay the records carry the exit position and the pattern covers the raster. */
  predicate PatternFits(h: History, plane: Plane, pattern: Option<seq<real>>) {
    Wide(plane, pattern) ==> 7 <= h.colcount && plane.xsize * plane.ysize <= |pattern.value|
  }

  /** The filter runs for the Jacobian and the two replay-weighted outputs, or when one detector is replayed. */
  predicate Filtering(outputtype: OutputType, replaydet: int) {
    outputtype == Jacobian || outputtype == WL || outputtype == WP || replaydet > 0
  }

  /** Column c of record i of the history. */
  function Column(ppath: seq<real>, h: History, i: nat, c: nat): real
    requires 1 <= h.colcount && h.savedphoton * h.colcount <= |ppath| && i < h.savedphoton && c < h.colcount
  {
    RecordInside(i, h.savedphoton, h.colcount);
    Field(ppath, h.colcount, i, c)
  }

  /** Record i is replayed: every record when replaydet is 0, else those whose truncated id is replaydet. */
  predicate Kept(ppath: seq<real>, h: History, replaydet: int, i: nat)
    requires 1 <= h.colcount && h.savedphoton * h.colcount <= |ppath| && i < h.savedphoton
  {
    replaydet == 0 || replaydet == Trunc(Column(ppath, h, i, 0))
  }

  /** The indices of the kept records among the first n, in increasing order. */
  function KeptIds(ppath: seq<real>, h: History, replaydet: int, n: nat): (ids: seq<nat>)
    requires 1 <= h.colcount && h.savedphoton * h.colcount <= |ppath| && n <= h.savedphoton
    ensures |ids| <= n
    ensures forall k :: 0 <= k < |ids| ==> ids[k] < n
  {
    if n == 0 then []
    else if Kept(ppath, h, replaydet, n - 1) then KeptIds(ppath, h, replaydet, n - 1) + [n - 1]
    else KeptIds(ppath, h, replaydet, n - 1)
  }

  /** A record is among the kept ones exactly when it is kept, and the kept ones are listed in order. */
  lemma {:induction false} KeptIdsExact(ppath: seq<real>, h: History, replaydet: int, n: nat)
    requires 1 <= h.colcount && h.savedphoton * h.colcount <= |ppath| && n <= h.savedphoton
    ensures forall i :: 0 <= i < n ==> (i in KeptIds(ppath, h, replaydet, n) <==> Kept(ppath, h, replaydet, i))
    ensures forall k, k' :: 0 <= k < k' < |KeptIds(ppath, h, replaydet, n)| ==>
              KeptIds(ppath, h, replaydet, n)[k] < KeptIds(ppath, h, replaydet, n)[k']
  {
    if n > 0 {
      KeptIdsExact(ppath, h, replaydet, n - 1);
    }
  }

  /** Replaying every detector keeps every record. */
  lemma {:induction false} KeptAll(ppath: seq<real>, h: History, n: nat)
    requires 1 <= h.colcount && h.savedphoton * h.colcount <= |ppath| && n <= h.savedphoton
    ensures KeptIds(ppath, h, 0, n) == seq(n, k => k)
  {
    if n > 0 {
      KeptAll(ppath, h, n - 1);
    }
  }

  /** The blocks of s at the positions ids, in that order. */
  function Select<T>(s: seq<T>, ids: seq<nat>): (r: seq<T>)
    requires forall k :: 0 <= k < |ids| ==> ids[k] < |s|
    ensures |r| == |ids|
  {
    seq(|ids|, k requires 0 <= k < |ids| => s[ids[k]])
  }

  /** Time of flight of record i over media 1..k: medium k contributes n_k * path_k * R_C0. */
  function ReplayTime(ppath: seq<real>, h: History, i: nat, med: seq<Medium>, k: nat): real
    requires Loaded(ppath, h, med) && i < h.savedphoton && k <= h.maxmedia
  {
    if k == 0 then 0.0
    else ReplayTime(ppath, h, i, med, k - 1) + med[k].n * Column(ppath, h, i, 1 + k) * R_C0
  }

  /** The replayed time is the optical path of the record, the path columns starting after column 1, turned into a time. */
  lemma {:induction false} ReplayTimeIsOpticalTime(ppath: seq<real>, h: History, i: nat, med: seq<Medium>, k: nat)
    requires Loaded(ppath, h, med) && i < h.savedphoton && k <= h.maxmedia && (i + 1) * h.colcount <= |ppath|
    ensures ReplayTime(ppath, h, i, med, k) == OpticalPath(ppath, h.colcount, i, 1, med, k) * R_C0
  {
    if k > 0 {
      ReplayTimeIsOpticalTime(ppath, h, i, med, k - 1);
    }
  }

  /**
   * The recorded weight of record i: the detection-pattern value at its
   * exit position in wide-field replay (an error off the raster), its last
   * column otherwise.
   */
  function RecordedWeight(ppath: seq<real>, h: History, i: nat, med: seq<Medium>, plane: Plane, pattern: Option<seq<real>>): (r: Result<real>)
    requires Loaded(ppath, h, med) && PatternFits(h, plane, pattern) && i < h.savedphoton
    ensures !Wide(plane, pattern) ==> r == Ok(Column(ppath, h, i, h.colcount - 1))
    ensures r.Err? ==> Wide(plane, pattern) && r.msg == MSG_OFF_PLANE
  {
    RecordInside(i, h.savedphoton, h.colcount);
    if Wide(plane, pattern) then DetWeight(ppath, h.colcount, i, plane, pattern.value)
    else Ok(Field(ppath, h.colcount, i, h.colcount - 1))
  }

  /** The replayed weight of record i: its recorded weight attenuated by the absorption of every medium along its path. */
  function ReplayWeight(ppath: seq<real>, h: History, i: nat, med: seq<Medium>, expf: real -> real,
                        plane: Plane, pattern: Option<seq<real>>): (r: Result<real>)
    requires Loaded(ppath, h, med) && PatternFits(h, plane, pattern) && i < h.savedphoton
    ensures r.Err? <==> RecordedWeight(ppath, h, i, med, plane, pattern).Err?
    ensures r.Err? ==> r.msg == MSG_OFF_PLANE
  {
    RecordInside(i, h.savedphoton, h.colcount);
    match RecordedWeight(ppath, h, i, med, plane, pattern)
    case Err(m) => Err(m)
    case Ok(w) => Ok(Attenuated(w, ppath, h.colcount, i, 1, med, expf, h.unitinmm, h.maxmedia))
  }

  /**
   * Only wide-field replay can fail, and only for a record that exits off
   * the raster; otherwise the replayed weight is the recorded one (the
   * pattern value at the exit cell, or the last column) attenuated by every
   * medium.
   */
  lemma ReplayWeightMeaning(ppath: seq<real>, h: History, i: nat, med: seq<Medium>, expf: real -> real,
                            plane: Plane, pattern: Option<seq<real>>)
    requires Loaded(ppath, h, med) && PatternFits(h, plane, pattern) && i < h.savedphoton && (i + 1) * h.colcount <= |ppath|
    ensures ReplayWeight(ppath, h, i, med, expf, plane, pattern).Err? <==>
              Wide(plane, pattern) &&
              !(InRaster(ExitColumn(ppath, h.colcount, i, plane), plane.xsize) && InRaster(ExitRow(ppath, h.colcount, i, plane), plane.ysize))
    ensures !Wide(plane, pattern) ==>
              ReplayWeight(ppath, h, i, med, expf, plane, pattern)
              == Ok(Attenuated(Field(ppath, h.colcount, i, h.colcount - 1), ppath, h.colcount, i, 1, med, expf, h.unitinmm, h.maxmedia))
    ensures Wide(plane, pattern) && ReplayWeight(ppath, h, i, med, expf, plane, pattern).Ok? ==>
              ReplayWeight(ppath, h, i, med, expf, plane, pattern)
              == Ok(Attenuated(PatternAt(pattern.value, ExitColumn(ppath, h.colcount, i, plane), ExitRow(ppath, h.colcount, i, plane), plane.xsize, plane.ysize),
                               ppath, h.colcount, i, 1, med, expf, h.unitinmm, h.maxmedia))
  {
  }

  /** With no absorption in any medium the replayed weight is the recorded one. */
  lemma {:induction false} NoAbsorptionKeepsWeight(w: real, ppath: seq<real>, cc: nat, i: nat, off: nat, med: seq<Medium>,
                                                   expf: real -> real, unitinmm: real, k: nat)
    requires off + k < cc && k < |med| && (i + 1) * cc <= |ppath|
    requires expf(0.0) == 1.0 && forall m :: 1 <= m <= k ==> med[m].mua == 0.0
    ensures Attenuated(w, ppath, cc, i, off, med, expf, unitinmm, k) == w
  {
    if k > 0 {
      NoAbsorptionKeepsWeight(w, ppath, cc, i, off, med, expf, unitinmm, k - 1);
      assert -Field(ppath, cc, i, off + k) * med[k].mua * unitinmm == 0.0;
    }
  }

  /** The attenuation loop of the filter: weight w of record i through media 1..maxmedia, medium k read from column 1 + k. */
  method Attenuate(w: real, ppath: seq<real>, h: History, i: nat, med: seq<Medium>, expf: real -> real) returns (weight: real)
    requires Loaded(ppath, h, med) && i < h.savedphoton && (i + 1) * h.colcount <= |ppath|
    ensures weight == Attenuated(w, ppath, h.colcount, i, 1, med, expf, h.unitinmm, h.maxmedia)
  {
    weight := w;
    var j := 2;
    while j < h.maxmedia + 2
      invariant 2 <= j <= h.maxmedia + 2
      invariant weight == Attenuated(w, ppath, h.colcount, i, 1, med, expf, h.unitinmm, j - 2)
    {
      var k := j - 1;
      weight := weight * Decay(expf, Field(ppath, h.colcount, i, 1 + k), med[k].mua, h.unitinmm);
      j := j + 1;
    }
  }

  /** The weight of record i as the filter computes it. */
  method ReplayedWeight(ppath: seq<real>, h: History, i: nat, med: seq<Medium>, expf: real -> real,
                        plane: Plane, pattern: Option<seq<real>>) returns (r: Result<real>)
    requires Loaded(ppath, h, med) && PatternFits(h, plane, pattern) && i < h.savedphoton
    ensures r == ReplayWeight(ppath, h, i, med, expf, plane, pattern)
  {
    RecordInside(i, h.savedphoton, h.colcount);
    var weight: real;
    if Wide(plane, pattern) {
      var d := DetWeight(ppath, h.colcount, i, plane, pattern.value);
      if d.Err? {
        return Err(d.msg);
      }
      weight := d.value;
    } else {
      weight := Field(ppath, h.colcount, i, h.colcount - 1);
    }
    assert RecordedWeight(ppath, h, i, med, plane, pattern) == Ok(weight);
    weight := Attenuate(weight, ppath, h, i, med, expf);
    r := Ok(weight);
  }

  /** The time loop of the filter for record i. */
  method ReplayedTime(ppath: seq<real>, h: History, i: nat, med: seq<Medium>) returns (t: real)
    requires Loaded(ppath, h, med) && i < h.savedphoton
    ensures t == ReplayTime(ppath, h, i, med, h.maxmedia)
  {
    t := 0.0;
    var j := 2;
    while j < h.maxmedia + 2
      invariant 2 <= j <= h.maxmedia + 2
      invariant t == ReplayTime(ppath, h, i, med, j - 2)
    {
      t := t + med[j - 1].n * Column(ppath, h, i, 1 + (j - 1)) * R_C0;
      j := j + 1;
    }
  }

  /** weights and times hold the replayed weight and time of the records ids, in that order. */
  predicate Replayed(ppath: seq<real>, h: History, med: seq<Medium>, expf: real -> real, plane: Plane, pattern: Option<seq<real>>,
                     ids: seq<nat>, weights: seq<real>, times: seq<real>)
    requires Loaded(ppath, h, med) && PatternFits(h, plane, pattern)
  {
    |weights| == |ids| && |times| == |ids| &&
    forall k :: 0 <= k < |ids| ==>
      ids[k] < h.savedphoton &&
      ReplayWeight(ppath, h, ids[k], med, expf, plane, pattern) == Ok(weights[k]) &&
      times[k] == ReplayTime(ppath, h, ids[k], med, h.maxmedia)
  }

  /** No kept record among the first n fails its weight. */
  predicate NoFailure(ppath: seq<real>, h: History, med: seq<Medium>, expf: real -> real, plane: Plane, pattern: Option<seq<real>>,
                      replaydet: int, n: nat)
    requires Loaded(ppath, h, med) && PatternFits(h, plane, pattern) && n <= h.savedphoton
  {
    forall i :: 0 <= i < n && Kept(ppath, h, replaydet, i) ==> ReplayWeight(ppath, h, i, med, expf, plane, pattern).Ok?
  }

  /** One more record: the kept ids grow by it exactly when it is kept. */
  lemma KeptIdsNext(ppath: seq<real>, h: History, replaydet: int, n: nat)
    requires 1 <= h.colcount && h.savedphoton * h.colcount <= |ppath| && n < h.savedphoton
    ensures Kept(ppath, h, replaydet, n) ==> KeptIds(ppath, h, replaydet, n + 1) == KeptIds(ppath, h, replaydet, n) + [n]
    ensures !Kept(ppath, h, replaydet, n) ==> KeptIds(ppath, h, replaydet, n + 1) == KeptIds(ppath, h, replaydet, n)
  {
  }

  /** Appending the weight and time of one more record keeps the collected values in step with the ids. */
  lemma ReplayedNext(ppath: seq<real>, h: History, med: seq<Medium>, expf: real -> real, plane: Plane, pattern: Option<seq<real>>,
                     ids: seq<nat>, weights: seq<real>, times: seq<real>, i: nat, w: real, t: real)
    requires Loaded(ppath, h, med) && PatternFits(h, plane, pattern) && i < h.savedphoton
    requires Replayed(ppath, h, med, expf, plane, pattern, ids, weights, times)
    requires ReplayWeight(ppath, h, i, med, expf, plane, pattern) == Ok(w) && t == ReplayTime(ppath, h, i, med, h.maxmedia)
    ensures Replayed(ppath, h, med, expf, plane, pattern, ids + [i], weights + [w], times + [t])
  {
  }

  /**
   * cur is s0 part way through compaction: the first |ids| blocks are the
   * blocks at ids, and from i on nothing has moved yet.
   */
  ghost predicate Compacted<T>(cur: seq<T>, s0: seq<T>, ids: seq<nat>, i: nat) {
    |cur| == |s0| && |ids| <= i <= |s0| &&
    (forall k :: 0 <= k < |ids| ==> ids[k] < |s0| && cur[k] == s0[ids[k]]) &&
    (forall k :: i <= k < |s0| ==> cur[k] == s0[k])
  }

  /** Copying block i down to the next free slot keeps the compaction invariant with i kept. */
  lemma CompactKeep<T>(cur: seq<T>, s0: seq<T>, ids: seq<nat>, i: nat)
    requires Compacted(cur, s0, ids, i) && i < |s0|
    ensures Compacted(cur[|ids| := cur[i]], s0, ids + [i], i + 1)
  {
  }

  /** Passing over block i keeps the compaction invariant. */
  lemma CompactSkip<T>(cur: seq<T>, s0: seq<T>, ids: seq<nat>, i: nat)
    requires Compacted(cur, s0, ids, i) && i < |s0|
    ensures Compacted(cur, s0, ids, i + 1)
  {
  }

  /** At the end of compaction the front of the array is the selected blocks. */
  lemma CompactDone<T>(cur: seq<T>, s0: seq<T>, ids: seq<nat>)
    requires Compacted(cur, s0, ids, |s0|)
    ensures cur[..|ids|] == Select(s0, ids)
  {
  }

  /** The body of the filter loop for a kept record i: move its seed block down and compute its weight and time. */
  method KeepRecord(seeds: array<seq<bv8>>, ppath: seq<real>, h: History, med: seq<Medium>, expf: real -> real,
                    plane: Plane, pattern: Option<seq<real>>, ghost s0: seq<seq<bv8>>, ghost ids: seq<nat>,
                    n: nat, i: nat, weights: seq<real>, times: seq<real>)
    returns (w: Result<real>, t: real)
    requires Loaded(ppath, h, med) && PatternFits(h, plane, pattern) && i < h.savedphoton && seeds.Length == h.savedphoton
    requires Compacted(seeds[..], s0, ids, i) && n == |ids|
    requires Replayed(ppath, h, med, expf, plane, pattern, ids, weights, times)
    modifies seeds
    ensures Compacted(seeds[..], s0, ids + [i], i + 1)
    ensures w == ReplayWeight(ppath, h, i, med, expf, plane, pattern)
    ensures w.Ok? ==> Replayed(ppath, h, med, expf, plane, pattern, ids + [i], weights + [w.value], times + [t])
  {
    CompactKeep(seeds[..], s0, ids, i);
    seeds[n] := seeds[i];
    w := ReplayedWeight(ppath, h, i, med, expf, plane, pattern);
    t := ReplayedTime(ppath, h, i, med);
    if w.Ok? {
      ReplayedNext(ppath, h, med, expf, plane, pattern, ids, weights, times, i, w.value, t);
    }
  }

  /**
   * The filter loop: the seed block of every kept record is copied down to
   * the next free slot, so the kept blocks end up at the front in their
   * original order; their weights and times are collected alongside.
   */
  method Compact(seeds: array<seq<bv8>>, ppath: seq<real>, h: History, med: seq<Medium>, expf: real -> real,
                 plane: Plane, pattern: Option<seq<real>>, replaydet: int)
    returns (n: nat, weights: seq<real>, times: seq<real>, r: Result<()>)
    requires Loaded(ppath, h, med) && PatternFits(h, plane, pattern) && seeds.Length == h.savedphoton
    modifies seeds
    ensures r.Err? <==> !NoFailure(ppath, h, med, expf, plane, pattern, replaydet, h.savedphoton)
    ensures r.Err? ==> r.msg == MSG_OFF_PLANE
    ensures r.Ok? ==>
              && n == |KeptIds(ppath, h, replaydet, h.savedphoton)|
              && seeds[..n] == Select(old(seeds[..]), KeptIds(ppath, h, replaydet, h.savedphoton))
              && Replayed(ppath, h, med, expf, plane, pattern, KeptIds(ppath, h, replaydet, h.savedphoton), weights, times)
  {
    ghost var s0 := seeds[..];
    ghost var ids: seq<nat> := [];
    n, weights, times := 0, [], [];
    var i := 0;
    while i < h.savedphoton
      invariant i <= h.savedphoton
      invariant ids == KeptIds(ppath, h, replaydet, i) && n == |ids|
      invariant Compacted(seeds[..], s0, ids, i)
      invariant Replayed(ppath, h, med, expf, plane, pattern, ids, weights, times)
      invariant NoFailure(ppath, h, med, expf, plane, pattern, replaydet, i)
    {
      KeptIdsNext(ppath, h, replaydet, i);
      if replaydet == 0 || replaydet == Trunc(Column(ppath, h, i, 0)) {
        var w, t := KeepRecord(seeds, ppath, h, med, expf, plane, pattern, s0, ids, n, i, weights, times);
        if w.Err? {
          return n, weights, times, Err(w.msg);
        }
        weights, times := weights + [w.value], times + [t];
        ids := ids + [i];
        n := n + 1;
      } else {
        CompactSkip(seeds[..], s0, ids, i);
      }
      i := i + 1;
    }
    CompactDone(seeds[..], s0, ids);
    r := Ok(());
  }

  /**
   * mesh_loadseedfile after the header and the seed blocks are read: a
   * history without saved photons or without seed bytes is ignored, one
   * recorded with another number of media than the mesh's prop is refused.
   * Otherwise the seed comes from the file and every saved photon is
   * relaunched; when the output needs replayed weights or one detector is
   * replayed, only the kept records remain, their seed blocks moved to the
   * front in order and the block array cut to their number, with their
   * weights and times recomputed and the minimum energy lifted. An
   * off-raster record in wide-field replay stops the run.
   */
  method ReplayFilter(cfg: Config, ppath: seq<real>, seeds: array<seq<bv8>>, h: History, prop: nat, med: seq<Medium>,
                      expf: real -> real, plane: Plane, pattern: Option<seq<real>>) returns (r: Result<()>)
    requires prop < |med|
    requires HasSeeds(h) ==> Framed(ppath, h) && PatternFits(h, plane, pattern) && seeds.Length == h.savedphoton
    modifies cfg, seeds
    ensures !HasSeeds(h) ==> r.Ok? && unchanged(cfg) && unchanged(seeds)
    ensures HasSeeds(h) && h.maxmedia != prop ==> r == Err(MSG_MEDIA) && unchanged(cfg) && unchanged(seeds)
    ensures HasSeeds(h) && h.maxmedia == prop ==>
              && cfg.seedFromFile && cfg.outputtype == old(cfg.outputtype) && cfg.replaydet == old(cfg.replaydet)
              && (r.Err? ==> r.msg == MSG_OFF_PLANE)
    ensures HasSeeds(h) && h.maxmedia == prop && !Filtering(cfg.outputtype, cfg.replaydet) ==>
              r.Ok? && cfg.nphoton == h.savedphoton && cfg.photonseed == seeds &&
              seeds[..] == old(seeds[..]) && cfg.replayweight == old(cfg.replayweight) &&
              cfg.replaytime == old(cfg.replaytime) && cfg.minenergy == old(cfg.minenergy)
    ensures HasSeeds(h) && h.maxmedia == prop && Filtering(cfg.outputtype, cfg.replaydet) ==>
              (r.Err? <==> !NoFailure(ppath, h, med, expf, plane, pattern, cfg.replaydet, h.savedphoton))
    ensures HasSeeds(h) && h.maxmedia == prop && Filtering(cfg.outputtype, cfg.replaydet) && r.Ok? ==>
              && cfg.nphoton == |KeptIds(ppath, h, cfg.replaydet, h.savedphoton)|
              && fresh(cfg.photonseed)
              && cfg.photonseed[..] == Select(old(seeds[..]), KeptIds(ppath, h, cfg.replaydet, h.savedphoton))
              && Replayed(ppath, h, med, expf, plane, pattern, KeptIds(ppath, h, cfg.replaydet, h.savedphoton), cfg.replayweight, cfg.replaytime)
              && cfg.minenergy == 0.0
  {
    if !HasSeeds(h) {
      return Ok(());
    }
    if h.maxmedia != prop {
      return Err(MSG_MEDIA);
    }
    cfg.photonseed := seeds;
    cfg.seedFromFile := true;
    cfg.nphoton := h.savedphoton;
    if !Filtering(cfg.outputtype, cfg.replaydet) {
      return Ok(());
    }
    var n, weights, times;
    n, weights, times, r := Compact(seeds, ppath, h, med, expf, plane, pattern, cfg.replaydet);
    if r.Err? {
      return;
    }
    cfg.nphoton := n;
    cfg.replayweight, cfg.replaytime := weights, times;
    var kept := new seq<bv8>[n];
    forall k | 0 <= k < n {
      kept[k] := seeds[k];
    }
    assert kept[..] == seeds[..n];
    cfg.photonseed := kept;
    cfg.minenergy := 0.0;
  }
}
