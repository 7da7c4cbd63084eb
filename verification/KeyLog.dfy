/** The paged key log of `index.rs`, as values: what its operations mean, and the exact law
    of a log that was reset and refilled. */
module KeyLog {
  import opened Host

  const PAGE_SIZE := 32

  datatype KeyIndexInfo = KeyIndexInfo(pageCount: u32, len: u32)

  /** Every version's summary and every page ever written. */
  datatype Logs = Logs(info: map<u32, KeyIndexInfo>, pages: map<(u32, u32), seq<Val>>)

  function Len(g: Logs, version: u32): u32 {
    if version in g.info then g.info[version].len else 0
  }

  /** An unwritten page reads as empty. */
  function Page(g: Logs, version: u32, page: u32): seq<Val> {
    if (version, page) in g.pages then g.pages[(version, page)] else []
  }

  /** What a page holds at log position `i`; the summary is not consulted. */
  function Slot(g: Logs, version: u32, i: u32): Option<Val> {
    var page := Page(g, version, i / PAGE_SIZE);
    if i % PAGE_SIZE < |page| then Some(page[i % PAGE_SIZE]) else None
  }

  /** Every position in `[from, to)` has a key in its page. */
  ghost predicate Filled(g: Logs, version: u32, from: int, to: int)
    requires 0 <= from && to <= U32_MAX
  {
    forall i: u32 :: from <= i < to ==> Slot(g, version, i).Some?
  }

  /** The pages hold at least the keys the summary advertises. */
  ghost predicate Covered(g: Logs, version: u32) {
    Filled(g, version, 0, Len(g, version))
  }

  ghost function Slice(g: Logs, version: u32, from: int, to: int): (keys: seq<Val>)
    requires 0 <= from <= to <= U32_MAX
    requires Filled(g, version, from, to)
    ensures |keys| == to - from
    ensures forall j :: 0 <= j < to - from ==> Slot(g, version, from + j) == Some(keys[j])
  {
    seq(to - from, j requires 0 <= j < to - from => Slot(g, version, from + j).value)
  }

  /** The keys a reader of the log sees. */
  ghost function Visible(g: Logs, version: u32): (keys: seq<Val>)
    requires Covered(g, version)
    ensures |keys| == Len(g, version)
    ensures forall i: u32 :: i < |keys| ==> Slot(g, version, i) == Some(keys[i])
  {
    Slice(g, version, 0, Len(g, version))
  }

  /** `index::register`: push onto the page of slot `len`, then bump the summary. */
  function Registered(g: Logs, version: u32, key: Val): Result<Logs> {
    var len := Len(g, version);
    if len == U32_MAX then Err(Trap) else
      var p: u32 := len / PAGE_SIZE;
      var before: u32 := if version in g.info then g.info[version].pageCount else 0;
      var pageCount: u32 := if p + 1 > before then p + 1 else before;
      Ok(Logs(g.info[version := KeyIndexInfo(pageCount, len + 1)],
              g.pages[(version, p) := Page(g, version, p) + [key]]))
  }

  /** `index::reset`: forget the summary, leave the pages. */
  function Reset(g: Logs, version: u32): Logs {
    g.(info := g.info - {version})
  }

  /** `index::range`: the window `[start, start + limit)` cut at the end of the log. */
  ghost function Range(g: Logs, version: u32, start: u32, limit: u32): Result<seq<Val>> {
    var end := Min(SaturatingAdd(start, limit), Len(g, version));
    if end <= start then Ok([])
    else if Filled(g, version, start, end) then Ok(Slice(g, version, start, end))
    else Err(CorruptIndex)
  }

  // ----- Sequences read through the log -----

  lemma SliceIsUnique(g: Logs, version: u32, from: int, to: int, keys: seq<Val>)
    requires 0 <= from <= to <= U32_MAX && |keys| == to - from
    requires forall j :: 0 <= j < to - from ==> Slot(g, version, from + j) == Some(keys[j])
    ensures Filled(g, version, from, to) && Slice(g, version, from, to) == keys
  {
    forall i: u32 | from <= i < to ensures Slot(g, version, i).Some? {
      assert Slot(g, version, from + (i - from)) == Some(keys[i - from]);
    }
    var slice := Slice(g, version, from, to);
    forall j | 0 <= j < |keys| ensures slice[j] == keys[j] {
      assert Slot(g, version, from + j) == Some(keys[j]);
    }
  }

  /** What the positions of a whole log read is what a reader sees. */
  lemma VisibleIs(g: Logs, version: u32, keys: seq<Val>)
    requires Len(g, version) == |keys|
    requires forall i: u32 :: i < |keys| ==> Slot(g, version, i) == Some(keys[i])
    ensures Covered(g, version) && Visible(g, version) == keys
  {
    var seen := Visible(g, version);
    forall i: u32 | i < |keys| ensures seen[i] == keys[i] {
      assert Slot(g, version, i) == Some(keys[i]);
    }
  }

  lemma SliceOfVisible(g: Logs, version: u32, from: int, to: int)
    requires Covered(g, version) && 0 <= from <= to <= Len(g, version)
    ensures Filled(g, version, from, to)
    ensures Slice(g, version, from, to) == Visible(g, version)[from..to]
  {
    var keys := Visible(g, version)[from..to];
    forall j | 0 <= j < to - from ensures Slot(g, version, from + j) == Some(keys[j]) {
      var i: u32 := from + j;
      assert Slot(g, version, i) == Some(Visible(g, version)[i]);
    }
    SliceIsUnique(g, version, from, to, keys);
  }

  /** The part of `keys` a batch of `limit` starting at `start` covers. */
  function Window(keys: seq<Val>, start: nat, limit: nat): seq<Val> {
    keys[Min(start, |keys|)..Min(start + limit, |keys|)]
  }

  /** On a covered log a range read succeeds and is a window of the visible keys. */
  lemma RangeReadsVisible(g: Logs, version: u32, start: u32, limit: u32)
    requires Covered(g, version)
    ensures Range(g, version, start, limit) == Ok(Window(Visible(g, version), start, limit))
  {
    var end := Min(SaturatingAdd(start, limit), Len(g, version));
    if end > start {
      SliceOfVisible(g, version, start, end);
    } else {
      assert Window(Visible(g, version), start, limit) == [];
    }
  }

  // ----- Registering -----

  lemma RegisterSlots(g: Logs, version: u32, key: Val)
    requires Len(g, version) < U32_MAX && Covered(g, version)
    ensures var after := Registered(g, version, key).value;
            && Len(after, version) == Len(g, version) + 1
            && (forall i: u32 :: i < Len(g, version) ==> Slot(after, version, i) == Slot(g, version, i))
            && Slot(after, version, Len(g, version)).Some?
            && (forall w: u32 :: w != version ==> Len(after, w) == Len(g, w))
            && (forall w: u32, i: u32 :: w != version ==> Slot(after, w, i) == Slot(g, w, i))
  {
    var n := Len(g, version);
    if n % PAGE_SIZE != 0 {
      assert Slot(g, version, n - 1).Some?;
    }
  }

  /** Registering never moves a key another reader could already see, and touches no other log. */
  lemma RegisterKeepsPositions(g: Logs, version: u32, key: Val)
    requires Len(g, version) < U32_MAX && Covered(g, version)
    ensures var after := Registered(g, version, key).value;
            && Len(after, version) == Len(g, version) + 1
            && Covered(after, version)
            && Visible(after, version)[..Len(g, version)] == Visible(g, version)
            && (forall w: u32 :: w != version ==> Len(after, w) == Len(g, w))
            && (forall w: u32, i: u32 :: w != version ==> Slot(after, w, i) == Slot(g, w, i))
  {
    var after := Registered(g, version, key).value;
    var n := Len(g, version);
    RegisterSlots(g, version, key);
    forall i: u32 | i < n + 1 ensures Slot(after, version, i).Some? {
      assert i < n ==> Slot(g, version, i).Some?;
    }
    forall i: u32 | i < n ensures Visible(after, version)[i] == Visible(g, version)[i] {
      assert Slot(after, version, i) == Slot(g, version, i);
    }
  }

  lemma OtherLogsSame(g: Logs, after: Logs, version: u32)
    requires Len(after, version) == Len(g, version) && Covered(g, version)
    requires forall i: u32 :: i < Len(g, version) ==> Slot(after, version, i) == Slot(g, version, i)
    ensures Covered(after, version) && Visible(after, version) == Visible(g, version)
  {
    VisibleIs(after, version, Visible(g, version));
  }

  // ----- Refilling: the exact law -----

  /** The keys of `ks` that belong on page `p`. */
  function Chunk(ks: seq<Val>, p: nat): seq<Val> {
    ks[Min(PAGE_SIZE * p, |ks|)..Min(PAGE_SIZE * p + PAGE_SIZE, |ks|)]
  }

  /** Registers a whole sequence; fails as a whole when the log is full. */
  function RegisteredAll(g: Logs, version: u32, ks: seq<Val>): Result<Logs> {
    if ks == [] then Ok(g) else
      match RegisteredAll(g, version, ks[..|ks| - 1])
      case Err(e) => Err(e)
      case Ok(before) => Registered(before, version, ks[|ks| - 1])
  }

  lemma ChunkSnoc(ks: seq<Val>, key: Val, p: nat)
    ensures Chunk(ks + [key], p) == if p == |ks| / PAGE_SIZE then Chunk(ks, p) + [key] else Chunk(ks, p)
  {
    if p > |ks| / PAGE_SIZE {
      assert PAGE_SIZE * p >= |ks| + 1;
    }
  }

  lemma ChunkHolds(ks: seq<Val>, p: nat, j: nat)
    requires j < |Chunk(ks, p)|
    ensures j < PAGE_SIZE && PAGE_SIZE * p + j < |ks| && Chunk(ks, p)[j] == ks[PAGE_SIZE * p + j]
  {}

  lemma ChunkAt(ks: seq<Val>, i: nat)
    requires i < |ks|
    ensures i % PAGE_SIZE < |Chunk(ks, i / PAGE_SIZE)|
    ensures Chunk(ks, i / PAGE_SIZE)[i % PAGE_SIZE] == ks[i]
  {}

  lemma PageAfter(g: Logs, version: u32, key: Val, p: u32)
    requires Registered(g, version, key).Ok?
    ensures Page(Registered(g, version, key).value, version, p)
         == if p == Len(g, version) / PAGE_SIZE then Page(g, version, p) + [key] else Page(g, version, p)
  {}

  /** `after` is the log of `g` with `ks` registered behind what the pages held. */
  ghost predicate Behind(g: Logs, version: u32, ks: seq<Val>, after: Logs) {
    && Len(after, version) == |ks|
    && (forall p: u32 :: Page(after, version, p) == Page(g, version, p) + Chunk(ks, p))
    && (forall w: u32 :: w != version ==> Len(after, w) == Len(g, w))
    && (forall w: u32, p: u32 :: w != version ==> Page(after, w, p) == Page(g, w, p))
  }

  lemma ChunkBehind(page: seq<Val>, ks: seq<Val>, key: Val, p: nat)
    ensures page + Chunk(ks + [key], p)
         == if p == |ks| / PAGE_SIZE then page + Chunk(ks, p) + [key] else page + Chunk(ks, p)
  {
    ChunkSnoc(ks, key, p);
    assert page + Chunk(ks, p) + [key] == page + (Chunk(ks, p) + [key]);
  }

  lemma RefillStep(g: Logs, version: u32, ks: seq<Val>, key: Val, before: Logs)
    requires Behind(g, version, ks, before) && |ks| < U32_MAX
    ensures Behind(g, version, ks + [key], Registered(before, version, key).value)
  {
    var after := Registered(before, version, key).value;
    forall p: u32 ensures Page(after, version, p) == Page(g, version, p) + Chunk(ks + [key], p) {
      PageAfter(before, version, key, p);
      ChunkBehind(Page(g, version, p), ks, key, p);
    }
  }

  /** Refilling an empty log puts each page's share of the keys *behind* whatever the page
      already held, and never anywhere else. */
  lemma {:induction false} RefillAppendsToPages(g: Logs, version: u32, ks: seq<Val>)
    requires Len(g, version) == 0 && |ks| <= U32_MAX
    ensures RegisteredAll(g, version, ks).Ok? && Behind(g, version, ks, RegisteredAll(g, version, ks).value)
  {
    if ks == [] {
    } else {
      var n := |ks| - 1;
      RefillAppendsToPages(g, version, ks[..n]);
      assert ks == ks[..n] + [ks[n]];
      RefillStep(g, version, ks[..n], ks[n], RegisteredAll(g, version, ks[..n]).value);
    }
  }

  /** The log of `version` holds exactly `keys` and no page holds anything else: the state of
      every log that was never reset. */
  ghost predicate Exact(g: Logs, version: u32, keys: seq<Val>) {
    && Len(g, version) == |keys|
    && forall p: u32 :: Page(g, version, p) == Chunk(keys, p)
  }

  lemma ExactIsVisible(g: Logs, version: u32, keys: seq<Val>)
    requires Exact(g, version, keys)
    ensures Covered(g, version) && Visible(g, version) == keys
  {
    forall i: u32 | i < |keys| ensures Slot(g, version, i) == Some(keys[i]) {
      ChunkAt(keys, i);
    }
    VisibleIs(g, version, keys);
  }

  /** On a log that was never reset, registering appends. */
  lemma RegisterAppends(g: Logs, version: u32, keys: seq<Val>, key: Val)
    requires Exact(g, version, keys) && |keys| < U32_MAX
    ensures Exact(Registered(g, version, key).value, version, keys + [key])
  {
    var after := Registered(g, version, key).value;
    forall p: u32 ensures Page(after, version, p) == Chunk(keys + [key], p) {
      ChunkSnoc(keys, key, p);
    }
  }

  /** What position `i` of a log reads after the log held `stale`, was reset, and had `refill`
      registered. */
  function Refilled(stale: seq<Val>, refill: seq<Val>, i: nat): Val
    requires i < |refill|
  {
    if i < |stale| then stale[i]
    else if i / PAGE_SIZE == |stale| / PAGE_SIZE then refill[i - |stale| % PAGE_SIZE]
    else refill[i]
  }

  lemma RefilledReads(g: Logs, version: u32, stale: seq<Val>, refill: seq<Val>, after: Logs, i: u32)
    requires Exact(g, version, stale) && Behind(Reset(g, version), version, refill, after) && i < |refill|
    ensures Slot(after, version, i) == Some(Refilled(stale, refill, i))
  {
    RefilledSlot(stale, refill, i);
    assert Page(Reset(g, version), version, i / PAGE_SIZE) == Page(g, version, i / PAGE_SIZE);
  }

  /** The exact law of reset: every position below the old length shows the *old* key, the
      rest of the old log's last page shows the new keys shifted, and only later pages show
      what was registered there. */
  lemma ResetLaw(g: Logs, version: u32, stale: seq<Val>, refill: seq<Val>)
    requires Exact(g, version, stale) && |refill| <= U32_MAX
    ensures var r := RegisteredAll(Reset(g, version), version, refill);
            && r.Ok? && Len(r.value, version) == |refill| && Covered(r.value, version)
            && forall i: nat :: i < |refill| ==> Visible(r.value, version)[i] == Refilled(stale, refill, i)
  {
    var g0 := Reset(g, version);
    RefillAppendsToPages(g0, version, refill);
    var r := RegisteredAll(g0, version, refill).value;
    var keys := seq(|refill|, i requires 0 <= i < |refill| => Refilled(stale, refill, i));
    forall i: u32 | i < |refill| ensures Slot(r, version, i) == Some(keys[i]) {
      RefilledReads(g, version, stale, refill, r, i);
    }
    VisibleIs(r, version, keys);
  }

  lemma RefilledSlot(stale: seq<Val>, refill: seq<Val>, i: nat)
    requires i < |refill|
    ensures var page := Chunk(stale, i / PAGE_SIZE) + Chunk(refill, i / PAGE_SIZE);
            i % PAGE_SIZE < |page| && page[i % PAGE_SIZE] == Refilled(stale, refill, i)
  {
    ChunkAt(refill, i);
    if i < |stale| {
      ChunkAt(stale, i);
    } else if i / PAGE_SIZE == |stale| / PAGE_SIZE {
      assert |Chunk(stale, i / PAGE_SIZE)| == |stale| % PAGE_SIZE;
    } else {
      assert |Chunk(stale, i / PAGE_SIZE)| == 0;
    }
  }

  ghost predicate ReadsAs(g: Logs, version: u32, keys: seq<Val>) {
    Covered(g, version) && Visible(g, version) == keys
  }

  /** Refilled to its old length, a reset log reads exactly as it did before the reset,
      whatever was registered; refilled to any other length it does not. */
  lemma {:induction false} ResetThenRefill(g: Logs, version: u32, stale: seq<Val>, refill: seq<Val>)
    requires Exact(g, version, stale) && |refill| <= U32_MAX
    ensures var r := RegisteredAll(Reset(g, version), version, refill);
            r.Ok? && Covered(r.value, version) && (ReadsAs(r.value, version, stale) <==> |refill| == |stale|)
  {
    ResetLaw(g, version, stale, refill);
  }

  /** "The index refills as if empty" fails already for one key: after a reset, registering `b`
      where `a` used to be leaves readers seeing `a`. */
  lemma ResetIsNotEmptying(a: Val, b: Val)
    requires a != b
    ensures var g := RegisteredAll(Logs(map[], map[]), 1, [a]);
            && g.Ok?
            && var r := RegisteredAll(Reset(g.value, 1), 1, [b]);
            r.Ok? && Covered(r.value, 1) && Visible(r.value, 1) == [a]
  {
    var empty := Logs(map[], map[]);
    RefillAppendsToPages(empty, 1, [a]);
    var g := RegisteredAll(empty, 1, [a]).value;
    assert Exact(g, 1, [a]);
    ResetLaw(g, 1, [a], [b]);
  }

  // ----- Membership -----

  /** Some page the summary advertises physically holds `key`: what `contains` scans for. */
  ghost predicate OnSomePage(g: Logs, version: u32, key: Val, pages: int) {
    exists p: u32 :: p < pages && key in Page(g, version, p)
  }

  function PagesFor(len: nat): nat {
    (len + PAGE_SIZE - 1) / PAGE_SIZE
  }

  /** `index::contains`. The scan condition multiplies the page number by the page size, so a
      log within 31 keys of full overflows on the way past its last page. */
  ghost function Contains(g: Logs, version: u32, key: Val): Result<bool> {
    var len := Len(g, version);
    if OnSomePage(g, version, key, PagesFor(len)) then Ok(true)
    else if PAGE_SIZE * PagesFor(len) > U32_MAX then Err(Trap)
    else Ok(false)
  }

  lemma ChunksCoverPrefix(ks: seq<Val>, key: Val, pages: nat)
    ensures (exists p: nat :: p < pages && key in Chunk(ks, p)) <==> key in ks[..Min(PAGE_SIZE * pages, |ks|)]
  {
    var prefix := ks[..Min(PAGE_SIZE * pages, |ks|)];
    if key in prefix {
      var i :| 0 <= i < |prefix| && prefix[i] == key;
      ChunkAt(ks, i);
      assert i / PAGE_SIZE < pages && key in Chunk(ks, i / PAGE_SIZE);
    }
    if p: nat :| p < pages && key in Chunk(ks, p) {
      var j :| 0 <= j < |Chunk(ks, p)| && Chunk(ks, p)[j] == key;
      ChunkHolds(ks, p, j);
      assert PAGE_SIZE * p + j < PAGE_SIZE * pages;
      assert prefix[PAGE_SIZE * p + j] == ks[PAGE_SIZE * p + j];
    }
  }

  /** On a log that was never reset the page scan is membership, and it traps exactly when the
      key is absent and fewer than 32 slots are left. */
  lemma ContainsIsMembership(g: Logs, version: u32, keys: seq<Val>, key: Val)
    requires Exact(g, version, keys)
    ensures Contains(g, version, key)
         == if key in keys then Ok(true) else if |keys| > U32_MAX + 1 - PAGE_SIZE then Err(Trap) else Ok(false)
  {
    var pages := PagesFor(|keys|);
    ChunksCoverPrefix(keys, key, pages);
    assert keys[..Min(PAGE_SIZE * pages, |keys|)] == keys;
    if p: nat :| p < pages && key in Chunk(keys, p) {
      assert key in Page(g, version, p);
    }
  }

  lemma LayeredPages(g: Logs, version: u32, stale: seq<Val>, refill: seq<Val>, key: Val, pages: u32)
    requires forall p: u32 :: Page(g, version, p) == Chunk(stale, p) + Chunk(refill, p)
    ensures OnSomePage(g, version, key, pages)
       <==> || key in stale[..Min(PAGE_SIZE * pages, |stale|)]
            || key in refill[..Min(PAGE_SIZE * pages, |refill|)]
  {
    ChunksCoverPrefix(refill, key, pages);
    ChunksCoverPrefix(stale, key, pages);
    forall p: u32 ensures key in Page(g, version, p) <==> key in Chunk(stale, p) || key in Chunk(refill, p) {
      assert Page(g, version, p) == Chunk(stale, p) + Chunk(refill, p);
    }
  }

  /** After a reset the scan also finds every stale key of each page the refill has reached. */
  lemma ContainsAfterReset(g: Logs, version: u32, stale: seq<Val>, refill: seq<Val>, key: Val)
    requires Exact(g, version, stale) && |refill| <= U32_MAX + 1 - PAGE_SIZE
    ensures var r := RegisteredAll(Reset(g, version), version, refill);
            && r.Ok?
            && Contains(r.value, version, key)
               == Ok(key in refill || key in stale[..Min(PAGE_SIZE * PagesFor(|refill|), |stale|)])
  {
    var g0 := Reset(g, version);
    RefillAppendsToPages(g0, version, refill);
    var r := RegisteredAll(g0, version, refill).value;
    var pages := PagesFor(|refill|);
    forall p: u32 ensures Page(r, version, p) == Chunk(stale, p) + Chunk(refill, p) {
      assert Page(g0, version, p) == Page(g, version, p);
    }
    LayeredPages(r, version, stale, refill, key, pages);
    assert refill[..Min(PAGE_SIZE * pages, |refill|)] == refill;
  }
}
