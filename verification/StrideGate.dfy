/**
 The embedding worker's stride gate: which tracked boxes of a frame are embedded, with a memory of each
 track's last embed that is pruned when idle. Pruning it changes no decision.
 */
module StrideGate {
  import opened Wrappers

  datatype BBox = BBox(x: real, y: real, w: real, h: real)

  /** A detected box; `bbox` is absent for a degenerate frame, `track` for an untracked box. */
  datatype Box = Box(track: Option<string>, widthPx: real, heightPx: real, bbox: Option<BBox>)

  /** What the model and the encoder did with the frame. */
  datatype Outcome = NoResults | Encoded | EncodeFailed

  datatype Frame = Frame(now: real, boxes: seq<Box>, outcome: Outcome)

  datatype Item = Item(track: string, bbox: BBox, at: real)

  datatype Embed = Embed(at: real, bbox: Option<BBox>)

  type Memory = map<string, Embed>

  const TRACK_IDLE: real := 600.0

  function RMax(a: real, b: real): real { if a < b then b else a }

  function Abs(x: real): real { if x < 0.0 then -x else x }

  datatype Config = Config(stride: real, suppress: bool, epsilon: real, refresh: real, minBoxPx: real) {
    function Idle(): real { RMax(TRACK_IDLE, RMax(2.0 * stride, 2.0 * refresh)) }

    predicate Valid() { 0.0 <= stride <= refresh && 0.0 < refresh }
  }

  /** The settings as the constructor clamps them; an unusable refresh falls back to an hour. */
  function Configure(stride: real, suppress: bool, epsilon: real, refresh: Option<real>, minBoxPx: real): (c: Config)
    ensures c.Valid()
    ensures 2.0 * c.stride <= c.Idle() && 2.0 * c.refresh <= c.Idle() && 600.0 <= c.Idle()
    ensures (c.suppress, c.epsilon, c.minBoxPx) == (suppress, epsilon, minBoxPx)
    ensures c.stride == (if stride < 0.0 then 0.0 else stride)
    ensures c.refresh == c.stride || c.refresh == if refresh.Some? && refresh.value > 0.0 then refresh.value else 3600.0
    ensures refresh.Some? ==> refresh.value <= c.refresh
  {
    var s := RMax(0.0, stride);
    var r := if refresh.None? || refresh.value <= 0.0 then 3600.0 else refresh.value;
    Config(s, suppress, epsilon, RMax(s, r), minBoxPx)
  }

  // ---------------------------------------------------------------- one frame

  predicate Still(c: Config, a: BBox, b: BBox) {
    RMax(RMax(Abs(a.x - b.x), Abs(a.y - b.y)), RMax(Abs(a.w - b.w), Abs(a.h - b.h))) < c.epsilon
  }

  predicate Usable(c: Config, box: Box) {
    box.track.Some? && c.minBoxPx <= box.widthPx && c.minBoxPx <= box.heightPx && box.bbox.Some?
  }

  predicate Due(c: Config, memory: Memory, now: real, box: Box) {
    && Usable(c, box)
    && (box.track.value in memory ==>
          var last := memory[box.track.value];
          && c.stride <= now - last.at
          && !(c.suppress && last.bbox.Some? && now - last.at < c.refresh && Still(c, box.bbox.value, last.bbox.value)))
  }

  function DueItems(c: Config, memory: Memory, now: real, boxes: seq<Box>): seq<Item> {
    if boxes == [] then []
    else
      var box := boxes[|boxes| - 1];
      DueItems(c, memory, now, boxes[..|boxes| - 1])
      + if Due(c, memory, now, box) then [Item(box.track.value, box.bbox.value, now)] else []
  }

  function Pruned(c: Config, memory: Memory, now: real): Memory {
    map t | t in memory && now - memory[t].at <= c.Idle() :: memory[t]
  }

  function Advance(memory: Memory, items: seq<Item>): Memory {
    if items == [] then memory
    else
      var i := items[|items| - 1];
      Advance(memory, items[..|items| - 1])[i.track := Embed(i.at, Some(i.bbox))]
  }

  /** The items embedded from a frame and the memory left behind, forgetting idle tracks or never. */
  function Step(c: Config, memory: Memory, frame: Frame, forget: bool): (Memory, seq<Item>) {
    if frame.outcome.NoResults? then (memory, [])
    else
      var kept := if forget then Pruned(c, memory, frame.now) else memory;
      var due := DueItems(c, kept, frame.now, frame.boxes);
      if frame.outcome.EncodeFailed? then (kept, []) else (Advance(kept, due), due)
  }

  class EmbeddingAnalyzer {
    const config: Config
    var lastEmbedded: Memory

    constructor (config: Config)
      ensures this.config == config && lastEmbedded == map[]
    {
      this.config := config;
      lastEmbedded := map[];
    }

    method PruneStrideGate(now: real)
      modifies this
      ensures lastEmbedded == Pruned(config, old(lastEmbedded), now)
    {
      var stale := set t | t in lastEmbedded && config.Idle() < now - lastEmbedded[t].at;
      ghost var was := lastEmbedded;
      while stale != {}
        invariant stale <= lastEmbedded.Keys
        invariant forall t :: t in stale ==> config.Idle() < now - was[t].at
        invariant lastEmbedded == map t | t in was && (t in stale || now - was[t].at <= config.Idle()) :: was[t]
      {
        var t :| t in stale;
        stale := stale - {t};
        lastEmbedded := lastEmbedded - {t};
      }
    }

    /** The gate advances only after the encoder has answered, so a failed frame is tried again. */
    method Analyze(frame: Frame) returns (items: seq<Item>)
      modifies this
      ensures (lastEmbedded, items) == Step(config, old(lastEmbedded), frame, true)
    {
      items := [];
      if frame.outcome.NoResults? {
        return;
      }
      PruneStrideGate(frame.now);
      ghost var kept := lastEmbedded;
      var due: seq<Item> := [];
      for i := 0 to |frame.boxes|
        invariant lastEmbedded == kept && due == DueItems(config, kept, frame.now, frame.boxes[..i])
      {
        var box := frame.boxes[i];
        assert frame.boxes[..i + 1][..i] == frame.boxes[..i];
        if box.track.None? { continue; }
        var track := box.track.value;
        var known := track in lastEmbedded;
        if known && frame.now - lastEmbedded[track].at < config.stride { continue; }
        if box.widthPx < config.minBoxPx || box.heightPx < config.minBoxPx { continue; }
        if box.bbox.None? { continue; }
        if config.suppress && known && lastEmbedded[track].bbox.Some?
           && frame.now - lastEmbedded[track].at < config.refresh
           && Still(config, box.bbox.value, lastEmbedded[track].bbox.value)
        { continue; }
        due := due + [Item(track, box.bbox.value, frame.now)];
      }
      assert frame.boxes[..|frame.boxes|] == frame.boxes;
      if frame.outcome.EncodeFailed? {
        return;
      }
      for i := 0 to |due|
        invariant lastEmbedded == Advance(kept, due[..i]) && items == due[..i]
      {
        assert due[..i + 1][..i] == due[..i];
        lastEmbedded := lastEmbedded[due[i].track := Embed(due[i].at, Some(due[i].bbox))];
        items := items + [due[i]];
      }
      assert due[..|due|] == due;
    }
  }

  // ---------------------------------------------------------------- pruning is invisible

  /** All frames' items, in order, from an empty memory. */
  function Embedded(c: Config, frames: seq<Frame>, forget: bool): (r: seq<seq<Item>>)
    ensures |r| == |frames|
  {
    if frames == [] then []
    else Embedded(c, frames[..|frames| - 1], forget) + [Step(c, After(c, frames[..|frames| - 1], forget), frames[|frames| - 1], forget).1]
  }

  function After(c: Config, frames: seq<Frame>, forget: bool): Memory {
    if frames == [] then map[] else Step(c, After(c, frames[..|frames| - 1], forget), frames[|frames| - 1], forget).0
  }

  predicate Monotonic(frames: seq<Frame>) {
    forall i, j :: 0 <= i < j < |frames| ==> frames[i].now <= frames[j].now
  }

  /** The pruned memory lacks only tracks idle for longer than the horizon by `now`. */
  ghost predicate Forgets(c: Config, memory: Memory, full: Memory, now: real) {
    && (forall t :: t in memory ==> t in full && memory[t] == full[t])
    && (forall t :: t in full && t !in memory ==> c.Idle() < now - full[t].at)
    && (forall t :: t in full ==> full[t].at <= now)
  }

  lemma SameDue(c: Config, memory: Memory, full: Memory, now: real, box: Box)
    requires c.Valid() && Forgets(c, memory, full, now)
    ensures Due(c, memory, now, box) <==> Due(c, full, now, box)
  {
  }

  lemma {:induction false} SameDueItems(c: Config, memory: Memory, full: Memory, now: real, boxes: seq<Box>)
    requires c.Valid() && Forgets(c, memory, full, now)
    ensures DueItems(c, memory, now, boxes) == DueItems(c, full, now, boxes)
  {
    if boxes != [] {
      SameDueItems(c, memory, full, now, boxes[..|boxes| - 1]);
      SameDue(c, memory, full, now, boxes[|boxes| - 1]);
    }
  }

  lemma {:induction false} AdvanceForgets(c: Config, memory: Memory, full: Memory, now: real, items: seq<Item>)
    requires Forgets(c, memory, full, now) && forall i :: 0 <= i < |items| ==> items[i].at == now
    ensures Forgets(c, Advance(memory, items), Advance(full, items), now)
  {
    if items != [] { AdvanceForgets(c, memory, full, now, items[..|items| - 1]); }
  }

  ghost predicate ComesFrom(item: Item, c: Config, memory: Memory, now: real, boxes: seq<Box>) {
    && item.at == now
    && exists b :: 0 <= b < |boxes| && Due(c, memory, now, boxes[b]) && boxes[b].track == Some(item.track)
  }

  lemma {:induction false} DueAreNow(c: Config, memory: Memory, now: real, boxes: seq<Box>)
    ensures forall i :: 0 <= i < |DueItems(c, memory, now, boxes)| ==>
      ComesFrom(DueItems(c, memory, now, boxes)[i], c, memory, now, boxes)
  {
    if boxes != [] {
      var n := |boxes| - 1;
      DueAreNow(c, memory, now, boxes[..n]);
      var init, all := DueItems(c, memory, now, boxes[..n]), DueItems(c, memory, now, boxes);
      forall i | 0 <= i < |all| ensures ComesFrom(all[i], c, memory, now, boxes) {
        if i < |init| {
          assert ComesFrom(init[i], c, memory, now, boxes[..n]);
          var b :| 0 <= b < n && Due(c, memory, now, boxes[..n][b]) && boxes[..n][b].track == Some(init[i].track);
          assert boxes[b] == boxes[..n][b];
        } else {
          assert Due(c, memory, now, boxes[n]);
        }
      }
    }
  }

  /** Whatever the frames, the forgetful gate embeds exactly what one with unlimited memory would. */
  lemma {:induction false} PruningIsInvisible(c: Config, frames: seq<Frame>)
    requires c.Valid() && Monotonic(frames)
    ensures Embedded(c, frames, true) == Embedded(c, frames, false)
    ensures frames != [] ==> Forgets(c, After(c, frames, true), After(c, frames, false), frames[|frames| - 1].now)
  {
    if frames != [] {
      var n := |frames| - 1;
      var init, frame := frames[..n], frames[n];
      PruningIsInvisible(c, init);
      var memory, full := After(c, init, true), After(c, init, false);
      assert Forgets(c, memory, full, frame.now);
      var kept := Pruned(c, memory, frame.now);
      assert Forgets(c, kept, full, frame.now);
      SameDueItems(c, kept, full, frame.now, frame.boxes);
      DueAreNow(c, kept, frame.now, frame.boxes);
      AdvanceForgets(c, kept, full, frame.now, DueItems(c, kept, frame.now, frame.boxes));
    }
  }

  // ---------------------------------------------------------------- what the gate guarantees

  lemma {:induction false} AdvanceRemembers(memory: Memory, items: seq<Item>, now: real, t: string)
    requires forall i :: 0 <= i < |items| ==> items[i].at == now
    ensures var next := Advance(memory, items);
      && (t in memory ==> t in next && (next[t] == memory[t] || next[t].at == now))
      && (forall i :: 0 <= i < |items| && items[i].track == t ==> t in next && next[t].at == now)
  {
    if items != [] { AdvanceRemembers(memory, items[..|items| - 1], now, t); }
  }

  ghost predicate Remembered(memory: Memory, item: Item) {
    item.track in memory && item.at <= memory[item.track].at
  }

  /** The unlimited memory holds, for every track embedded so far, an embed at least as late as each of its items. */
  lemma {:induction false} FullMemoryIsLatest(c: Config, frames: seq<Frame>, k: nat, x: nat)
    requires Monotonic(frames) && k < |frames| && x < |Embedded(c, frames, false)[k]|
    ensures Embedded(c, frames, false)[k][x].at == frames[k].now
    ensures Remembered(After(c, frames, false), Embedded(c, frames, false)[k][x])
  {
    var n := |frames| - 1;
    var init, frame := frames[..n], frames[n];
    var item := Embedded(c, frames, false)[k][x];
    var full := After(c, init, false);
    var due := DueItems(c, full, frame.now, frame.boxes);
    DueAreNow(c, full, frame.now, frame.boxes);
    assert forall i :: 0 <= i < |due| ==> due[i].at == frame.now;
    AdvanceRemembers(full, due, frame.now, item.track);
    if k < n {
      assert Embedded(c, frames, false)[k] == Embedded(c, init, false)[k];
      FullMemoryIsLatest(c, init, k, x);
      assert init[k] == frames[k];
    } else {
      assert Embedded(c, frames, false)[n] == Step(c, full, frame, false).1;
      assert due[x] == item;
    }
  }

  lemma {:induction false} EmbeddedPrefix(c: Config, frames: seq<Frame>, n: nat)
    requires n <= |frames|
    ensures Embedded(c, frames[..n], false) <= Embedded(c, frames, false)
  {
    if n == |frames| {
      assert frames[..n] == frames;
    } else {
      var m := |frames| - 1;
      EmbeddedPrefix(c, frames[..m], n);
      assert frames[..m][..n] == frames[..n];
    }
  }

  /** Embeds of one track from different frames are at least a stride apart, with pruning as without. */
  lemma EmbedsAStrideApart(c: Config, frames: seq<Frame>, k: nat, l: nat, x: nat, y: nat)
    requires c.Valid() && Monotonic(frames) && k < l < |frames|
    requires x < |Embedded(c, frames, true)[k]| && y < |Embedded(c, frames, true)[l]|
    requires Embedded(c, frames, true)[k][x].track == Embedded(c, frames, true)[l][y].track
    ensures c.stride <= frames[l].now - frames[k].now
  {
    hide *;
    PruningIsInvisible(c, frames);
    EmbeddedPrefix(c, frames, l);
    MonotonicPrefix(frames, l);
    FullMemoryIsLatest(c, frames[..l], k, x);
    EmbeddedNow(c, frames, l, y);
    var before, later := Embedded(c, frames, true)[k][x], Embedded(c, frames, true)[l][y];
    NotBeforeStride(c, After(c, frames[..l], false), before, later, frames[l]);
  }

  lemma MonotonicPrefix(frames: seq<Frame>, n: nat)
    requires Monotonic(frames) && n <= |frames|
    ensures Monotonic(frames[..n])
  {
  }

  lemma EmbeddedNow(c: Config, frames: seq<Frame>, l: nat, y: nat)
    requires l < |frames| && y < |Embedded(c, frames, false)[l]|
    ensures ComesFrom(Embedded(c, frames, false)[l][y], c, After(c, frames[..l], false), frames[l].now, frames[l].boxes)
  {
    var full := After(c, frames[..l], false);
    EmbeddedPrefix(c, frames, l + 1);
    assert frames[..l + 1][..l] == frames[..l];
    assert Embedded(c, frames[..l + 1], false)[l] == Step(c, full, frames[l], false).1;
    DueAreNow(c, full, frames[l].now, frames[l].boxes);
  }

  lemma NotBeforeStride(c: Config, full: Memory, before: Item, later: Item, frame: Frame)
    requires Remembered(full, before) && before.track == later.track
    requires ComesFrom(later, c, full, frame.now, frame.boxes)
    ensures c.stride <= frame.now - before.at
  {
  }

  predicate HasItem(items: seq<Item>, track: string, now: real) {
    exists i :: 0 <= i < |items| && items[i].track == track && items[i].at == now
  }

  /**
   A parked object is never lost: on a frame that encodes, a usable box whose track was last embedded a
   refresh ago or longer, or never, is embedded, whether or not it moved and whatever was pruned.
   */
  lemma ParkedObjectRefreshes(c: Config, past: seq<Frame>, frame: Frame, b: nat)
    requires c.Valid() && Monotonic(past + [frame]) && frame.outcome.Encoded?
    requires b < |frame.boxes| && Usable(c, frame.boxes[b])
    requires var full, track := After(c, past, false), frame.boxes[b].track.value;
      track in full ==> c.refresh <= frame.now - full[track].at
    ensures HasItem(Step(c, After(c, past, true), frame, true).1, frame.boxes[b].track.value, frame.now)
  {
    var memory, full := After(c, past, true), After(c, past, false);
    var kept := Pruned(c, memory, frame.now);
    assert forall i :: 0 <= i < |past| ==> (past + [frame])[i] == past[i];
    assert (past + [frame])[|past|] == frame;
    PruningIsInvisible(c, past);
    assert Forgets(c, kept, full, frame.now);
    SameDue(c, kept, full, frame.now, frame.boxes[b]);
    DueIsListed(c, kept, frame.now, frame.boxes, b);
  }

  lemma {:induction false} DueIsListed(c: Config, memory: Memory, now: real, boxes: seq<Box>, b: nat)
    requires b < |boxes| && Due(c, memory, now, boxes[b])
    ensures HasItem(DueItems(c, memory, now, boxes), boxes[b].track.value, now)
  {
    var n := |boxes| - 1;
    var items := DueItems(c, memory, now, boxes);
    var init := DueItems(c, memory, now, boxes[..n]);
    if b < n {
      DueIsListed(c, memory, now, boxes[..n], b);
      var i :| 0 <= i < |init| && init[i].track == boxes[b].track.value && init[i].at == now;
      assert items[i] == init[i];
    } else {
      assert items[|init|].track == boxes[b].track.value;
    }
  }

  // ---------------------------------------------------------------- the gate, told from what was embedded before

  /** The latest of the items of a track. */
  function LastIn(items: seq<Item>, track: string): Option<Item> {
    if items == [] then None
    else if items[|items| - 1].track == track then Some(items[|items| - 1])
    else LastIn(items[..|items| - 1], track)
  }

  function LastOf(past: seq<seq<Item>>, track: string): Option<Item> {
    if past == [] then None
    else if LastIn(past[|past| - 1], track).Some? then LastIn(past[|past| - 1], track)
    else LastOf(past[..|past| - 1], track)
  }

  predicate Moved(c: Config, a: BBox, b: BBox) {
    || c.epsilon <= a.x - b.x || c.epsilon <= b.x - a.x || c.epsilon <= a.y - b.y || c.epsilon <= b.y - a.y
    || c.epsilon <= a.w - b.w || c.epsilon <= b.w - a.w || c.epsilon <= a.h - b.h || c.epsilon <= b.h - a.h
  }

  /**
   A tracked box of a sufficient size, not embedded yet, or embedded a stride ago and, where still boxes are
   suppressed, moved since then or not refreshed for too long.
   */
  predicate IsWanted(c: Config, past: seq<seq<Item>>, now: real, box: Box) {
    && box.track.Some? && box.bbox.Some? && c.minBoxPx <= box.widthPx && c.minBoxPx <= box.heightPx
    && match LastOf(past, box.track.value)
       case None => true
       case Some(last) =>
         && last.at + c.stride <= now
         && (c.suppress ==> last.at + c.refresh <= now || Moved(c, box.bbox.value, last.bbox))
  }

  function WantedItems(c: Config, past: seq<seq<Item>>, now: real, boxes: seq<Box>): seq<Item> {
    if boxes == [] then []
    else
      var n := |boxes| - 1;
      WantedItems(c, past, now, boxes[..n])
      + if IsWanted(c, past, now, boxes[n]) then [Item(boxes[n].track.value, boxes[n].bbox.value, now)] else []
  }

  lemma StillIff(c: Config, a: BBox, b: BBox)
    ensures Still(c, a, b) <==> !Moved(c, a, b)
  {
  }

  /** The memory holds the last item of each track, and nothing else. */
  ghost predicate IsLedger(memory: Memory, past: seq<seq<Item>>) {
    forall t :: (t in memory <==> LastOf(past, t).Some?)
      && (t in memory ==> memory[t] == Embed(LastOf(past, t).value.at, Some(LastOf(past, t).value.bbox)))
  }

  lemma {:induction false} AdvanceIsLast(memory: Memory, items: seq<Item>, t: string)
    ensures var next, last := Advance(memory, items), LastIn(items, t);
      && (t in next <==> t in memory || last.Some?)
      && (last.Some? ==> next[t] == Embed(last.value.at, Some(last.value.bbox)))
      && (last.None? && t in memory ==> next[t] == memory[t])
  {
    if items != [] { AdvanceIsLast(memory, items[..|items| - 1], t); }
  }

  lemma LedgerGrows(memory: Memory, past: seq<seq<Item>>, items: seq<Item>)
    requires IsLedger(memory, past)
    ensures IsLedger(Advance(memory, items), past + [items])
  {
    assert (past + [items])[..|past|] == past;
    forall t ensures
      var last := LastIn(items, t);
      LastOf(past + [items], t) == if last.Some? then last else LastOf(past, t)
    {
    }
    forall t { AdvanceIsLast(memory, items, t); }
  }

  lemma {:induction false} DueIsWanted(c: Config, memory: Memory, past: seq<seq<Item>>, now: real, boxes: seq<Box>)
    requires IsLedger(memory, past)
    ensures DueItems(c, memory, now, boxes) == WantedItems(c, past, now, boxes)
  {
    if boxes != [] {
      var box := boxes[|boxes| - 1];
      DueIsWanted(c, memory, past, now, boxes[..|boxes| - 1]);
      if box.track.Some? && box.bbox.Some? && box.track.value in memory {
        StillIff(c, box.bbox.value, LastOf(past, box.track.value).value.bbox);
      }
      hide Still, Moved;
      assert Due(c, memory, now, box) <==> IsWanted(c, past, now, box);
    }
  }

  lemma {:induction false} LedgerOf(c: Config, frames: seq<Frame>)
    ensures IsLedger(After(c, frames, false), Embedded(c, frames, false))
  {
    if frames != [] {
      var n := |frames| - 1;
      LedgerOf(c, frames[..n]);
      var items := Step(c, After(c, frames[..n], false), frames[n], false).1;
      LedgerGrows(After(c, frames[..n], false), Embedded(c, frames[..n], false), items);
    }
  }

  /**
   The gate's decisions by what it embedded before, whatever was pruned in between: of a frame that encodes exactly
   the wanted boxes are embedded, in their order, and of any other frame none.
   */
  lemma EmbeddedIffWanted(c: Config, frames: seq<Frame>)
    requires c.Valid() && Monotonic(frames) && frames != []
    ensures var n := |frames| - 1;
      var past := Embedded(c, frames[..n], true);
      Embedded(c, frames, true) == past +
        [if frames[n].outcome.Encoded? then WantedItems(c, past, frames[n].now, frames[n].boxes) else []]
  {
    var n := |frames| - 1;
    PruningIsInvisible(c, frames);
    PruningIsInvisible(c, frames[..n]);
    LedgerOf(c, frames[..n]);
    DueIsWanted(c, After(c, frames[..n], false), Embedded(c, frames[..n], false), frames[n].now, frames[n].boxes);
  }
}
