/** Page geometry and node capacities, shared by the tree and its page codec. */
module NodeLayout {
  import opened BTreeShape

  const PAGE_SIZE := 8192
  const PAGE_HEADER_SIZE := 32
  const USABLE_SPACE := PAGE_SIZE - PAGE_HEADER_SIZE
  const INTERNAL_FIXED_HEADER := 6
  const LEAF_FIXED_HEADER := 10
  const CHILD_PTR_SIZE := 4
  const DATA_PTR_SIZE := 6
  const MIN_OCCUPANCY_PERCENT := 40
  const UUID_KEY_SIZE := 16
  const VAR_LEN_PREFIX := 2

  /** How keys are laid out: fixed 16-byte keys, or byte strings up to a
      configured size. */
  datatype KeyConfig = UuidKeys | VarKeys(maxKeySize: nat)

  function SlotKeySize(cfg: KeyConfig): nat {
    match cfg case UuidKeys => UUID_KEY_SIZE case VarKeys(n) => VAR_LEN_PREFIX + n
  }

  function NodeMetaBytes(cfg: KeyConfig): nat {
    match cfg case UuidKeys => 0 case VarKeys(_) => 2
  }

  function InternalMaxKeys(cfg: KeyConfig): nat {
    (USABLE_SPACE - (INTERNAL_FIXED_HEADER + NodeMetaBytes(cfg))) / (SlotKeySize(cfg) + CHILD_PTR_SIZE)
  }

  function LeafMaxEntries(cfg: KeyConfig): nat {
    (USABLE_SPACE - (LEAF_FIXED_HEADER + NodeMetaBytes(cfg))) / (SlotKeySize(cfg) + DATA_PTR_SIZE)
  }

  function InternalMinKeys(cfg: KeyConfig): nat { InternalMaxKeys(cfg) * MIN_OCCUPANCY_PERCENT / 100 }
  function LeafMinEntries(cfg: KeyConfig): nat { LeafMaxEntries(cfg) * MIN_OCCUPANCY_PERCENT / 100 }

  function CapsOf(cfg: KeyConfig): Caps {
    Caps(LeafMaxEntries(cfg), LeafMinEntries(cfg), InternalMaxKeys(cfg), InternalMinKeys(cfg))
  }

  /** a / b is the largest q with q * b <= a. */
  lemma DivBound(a: nat, b: nat, n: nat)
    requires b > 0
    ensures a / b >= n <==> a >= n * b
  {
    assert a == (a / b) * b + a % b;
    if a / b >= n {
      assert (a / b) * b >= n * b;
    } else {
      assert (a / b + 1) * b <= n * b;
    }
  }

  /** The capacities the tree requires hold exactly when a leaf has room for an
      entry: for fixed keys, and for variable keys of at most 8140 bytes. */
  lemma CapsWork(cfg: KeyConfig)
    ensures CapsOK(CapsOf(cfg)) <==> LeafMaxEntries(cfg) >= 1
    ensures CapsOK(CapsOf(cfg)) <==> (cfg.VarKeys? ==> cfg.maxKeySize <= 8140)
  {
    DivBound(USABLE_SPACE - (LEAF_FIXED_HEADER + NodeMetaBytes(cfg)), SlotKeySize(cfg) + DATA_PTR_SIZE, 1);
    DivBound(USABLE_SPACE - (INTERNAL_FIXED_HEADER + NodeMetaBytes(cfg)), SlotKeySize(cfg) + CHILD_PTR_SIZE, 1);
    LeafNeedsMore(cfg);
  }

  lemma LeafNeedsMore(cfg: KeyConfig)
    ensures 3 <= LeafMaxEntries(cfg) ==> 3 <= InternalMaxKeys(cfg)
  {
    DivBound(USABLE_SPACE - (LEAF_FIXED_HEADER + NodeMetaBytes(cfg)), SlotKeySize(cfg) + DATA_PTR_SIZE, 3);
    DivBound(USABLE_SPACE - (INTERNAL_FIXED_HEADER + NodeMetaBytes(cfg)), SlotKeySize(cfg) + CHILD_PTR_SIZE, 3);
  }

  /** The minimum occupancies are positive, so that rebalancing takes place at
      all, exactly up to 2708-byte keys; that includes every size up to the
      documented maximum of 256. */
  lemma MinimaPositive(cfg: KeyConfig)
    ensures 1 <= LeafMinEntries(cfg) && 1 <= InternalMinKeys(cfg) <==> (cfg.VarKeys? ==> cfg.maxKeySize <= 2708)
  {
    DivBound(USABLE_SPACE - (LEAF_FIXED_HEADER + NodeMetaBytes(cfg)), SlotKeySize(cfg) + DATA_PTR_SIZE, 3);
    DivBound(USABLE_SPACE - (INTERNAL_FIXED_HEADER + NodeMetaBytes(cfg)), SlotKeySize(cfg) + CHILD_PTR_SIZE, 3);
  }
}
