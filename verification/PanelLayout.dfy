/** Where the cache-blocked m8b adapters keep the activation block of M tile
    `tm` and K block `b`: the padded panels of m8b-CB, and the dense panels of
    m8b-DPU-CB with a short last panel. */
module PanelLayout {
  import opened BitArithmetic
  import opened Gemm

  /** `PackedPanels` is m8b-CB, `UnpackedPanels` is m8b-DPU-CB. */
  datatype Variant = PackedPanels | UnpackedPanels

  /** `kBlocksPerPanel`. */
  function PanelSize(v: Variant): nat { if v.PackedPanels? then 32 else 16 }

  function LocalBlocks(v: Variant, k: nat, blockK: nat): (r: nat)
    requires blockK < k
    ensures 0 < r <= PanelSize(v) && blockK + r <= k
  {
    if PanelSize(v) < k - blockK then PanelSize(v) else k - blockK
  }

  /** First block of tile `tm` in the panel that starts at K block `blockK`. */
  function TileBase(v: Variant, tilesM: nat, k: nat, tm: nat, blockK: nat): nat
    requires blockK < k
  {
    match v
    case PackedPanels => blockK / 32 * tilesM * 32 + tm * 32
    case UnpackedPanels => blockK * tilesM + tm * LocalBlocks(v, k, blockK)
  }

  function PanelStart(v: Variant, b: nat): (r: nat)
    ensures r <= b < r + PanelSize(v)
  {
    b / PanelSize(v) * PanelSize(v)
  }

  function BlockIndex(v: Variant, tilesM: nat, k: nat, tm: nat, b: nat): nat
    requires b < k
  {
    TileBase(v, tilesM, k, tm, PanelStart(v, b)) + b % PanelSize(v)
  }

  /** Blocks `packed_a` holds. */
  function Capacity(v: Variant, tilesM: nat, k: nat): nat {
    if v.PackedPanels? then (k + 31) / 32 * tilesM * 32 else tilesM * k
  }

  lemma InPanel(v: Variant, panel: nat, l: nat)
    requires l < PanelSize(v)
    ensures PanelStart(v, panel * PanelSize(v) + l) == panel * PanelSize(v)
            && (panel * PanelSize(v) + l) % PanelSize(v) == l
  {
    match v
    case PackedPanels => assert (panel * 32 + l) / 32 == panel;
    case UnpackedPanels => assert (panel * 16 + l) / 16 == panel;
  }

  /** Block `l` of a panel sits `l` blocks after the tile's first. */
  lemma BlockIndexIs(v: Variant, tilesM: nat, k: nat, tm: nat, panel: nat, l: nat)
    requires l < PanelSize(v) && panel * PanelSize(v) + l < k
    ensures BlockIndex(v, tilesM, k, tm, panel * PanelSize(v) + l)
            == TileBase(v, tilesM, k, tm, panel * PanelSize(v)) + l
  {
    InPanel(v, panel, l);
  }

  /** What a tile's slice of a panel spans, and where the whole panel lies. */
  lemma DensePanel(tilesM: nat, k: nat, tm: nat, blockK: nat, l: nat)
    requires blockK < k && tm < tilesM && l < LocalBlocks(UnpackedPanels, k, blockK)
    ensures var i := TileBase(UnpackedPanels, tilesM, k, tm, blockK) + l;
            blockK * tilesM <= i < (blockK + LocalBlocks(UnpackedPanels, k, blockK)) * tilesM
  {
    var local := LocalBlocks(UnpackedPanels, k, blockK);
    MulStep(local, tm, tilesM);
    assert (blockK + local) * tilesM == blockK * tilesM + local * tilesM;
  }

  lemma PaddedIndex(tilesM: nat, k: nat, tm: nat, q: nat, l: nat)
    requires l < 32 && q * 32 + l < k
    ensures BlockIndex(PackedPanels, tilesM, k, tm, q * 32 + l) == 32 * (q * tilesM + tm) + l
  {
    BlockIndexIs(PackedPanels, tilesM, k, tm, q, l);
    assert q * 32 / 32 == q;
  }

  /** The index is in bounds for every shape, whatever the size of the last panel. */
  lemma IndexInBounds(v: Variant, tilesM: nat, k: nat, tm: nat, b: nat)
    requires tm < tilesM && b < k
    ensures BlockIndex(v, tilesM, k, tm, b) < Capacity(v, tilesM, k)
  {
    match v
    case PackedPanels =>
      var q, l := DivMod(b, 32, (k + 31) / 32);
      PaddedIndex(tilesM, k, tm, q, l);
      CellBound((k + 31) / 32, tilesM, q, tm);
    case UnpackedPanels =>
      var s := PanelStart(v, b);
      DensePanel(tilesM, k, tm, s, b % 16);
      MulOrder(s + LocalBlocks(v, k, s), k, tilesM);
  }

  /** Distinct (M tile, K block) pairs have distinct places. */
  lemma IndexInjective(v: Variant, tilesM: nat, k: nat, tm: nat, b: nat, um: nat, c: nat)
    requires tm < tilesM && um < tilesM && b < k && c < k
    requires BlockIndex(v, tilesM, k, tm, b) == BlockIndex(v, tilesM, k, um, c)
    ensures tm == um && b == c
  {
    match v
    case PackedPanels => PaddedInjective(tilesM, k, tm, b, um, c);
    case UnpackedPanels =>
      if PanelStart(v, b) == PanelStart(v, c) { SamePanel(tilesM, k, tm, b, um, c); }
      else if b < c { EarlierPanel(tilesM, k, tm, b, um, c); }
      else { EarlierPanel(tilesM, k, um, c, tm, b); }
  }

  lemma PaddedInjective(tilesM: nat, k: nat, tm: nat, b: nat, um: nat, c: nat)
    requires tm < tilesM && um < tilesM && b < k && c < k
    requires BlockIndex(PackedPanels, tilesM, k, tm, b) == BlockIndex(PackedPanels, tilesM, k, um, c)
    ensures tm == um && b == c
  {
    var q, l := DivMod(b, 32, k);
    var r, m := DivMod(c, 32, k);
    PaddedIndex(tilesM, k, tm, q, l);
    PaddedIndex(tilesM, k, um, r, m);
    DigitEqual(32, q * tilesM + tm, l, r * tilesM + um, m);
    CellOrder(tilesM, q, tm, r, um);
  }

  lemma SamePanel(tilesM: nat, k: nat, tm: nat, b: nat, um: nat, c: nat)
    requires b < k && c < k && PanelStart(UnpackedPanels, b) == PanelStart(UnpackedPanels, c)
    requires BlockIndex(UnpackedPanels, tilesM, k, tm, b) == BlockIndex(UnpackedPanels, tilesM, k, um, c)
    ensures tm == um && b == c
  {
    var local := LocalBlocks(UnpackedPanels, k, PanelStart(UnpackedPanels, b));
    DigitEqual(local, tm, b % 16, um, c % 16);
  }

  lemma EarlierPanel(tilesM: nat, k: nat, tm: nat, b: nat, um: nat, c: nat)
    requires b < c < k && tm < tilesM && um < tilesM && PanelStart(UnpackedPanels, b) != PanelStart(UnpackedPanels, c)
    ensures BlockIndex(UnpackedPanels, tilesM, k, tm, b) < BlockIndex(UnpackedPanels, tilesM, k, um, c)
  {
    var s, t := PanelStart(UnpackedPanels, b), PanelStart(UnpackedPanels, c);
    PanelsApart(k, b, c);
    DensePanel(tilesM, k, tm, s, b % 16);
    DensePanel(tilesM, k, um, t, c % 16);
    InOrder(tilesM, s + LocalBlocks(UnpackedPanels, k, s), t, BlockIndex(UnpackedPanels, tilesM, k, tm, b),
            BlockIndex(UnpackedPanels, tilesM, k, um, c));
  }

  lemma PanelsApart(k: nat, b: nat, c: nat)
    requires b < c < k && PanelStart(UnpackedPanels, b) != PanelStart(UnpackedPanels, c)
    ensures PanelStart(UnpackedPanels, b)
            + LocalBlocks(UnpackedPanels, k, PanelStart(UnpackedPanels, b)) <= PanelStart(UnpackedPanels, c)
  {}

  lemma InOrder(tilesM: nat, end: nat, start: nat, i: nat, j: nat)
    requires end <= start && i < end * tilesM && start * tilesM <= j
    ensures i < j
  {
    MulOrder(end, start, tilesM);
  }

  /** The dense index also leaves no gap, with a short last panel too: it is a
      bijection onto `0 .. tilesM * k`. */
  lemma IndexOnto(tilesM: nat, k: nat, i: nat) returns (tm: nat, b: nat)
    requires i < tilesM * k
    ensures tm < tilesM && b < k && BlockIndex(UnpackedPanels, tilesM, k, tm, b) == i
  {
    var x, rest := DivMod(i, tilesM, k);
    var s := PanelStart(UnpackedPanels, x);
    var local := LocalBlocks(UnpackedPanels, k, s);
    var inside := (x - s) * tilesM + rest;
    assert i == s * tilesM + inside;
    CellBound(local, tilesM, x - s, rest);
    var l: nat;
    tm, l := DivMod(inside, local, tilesM);
    b := s + l;
    assert s == s / 16 * 16;
    BlockIndexIs(UnpackedPanels, tilesM, k, tm, s / 16, l);
  }
}
