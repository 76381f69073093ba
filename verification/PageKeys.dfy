/** Which keys stand on the pages of a tree: operations only move and copy keys
    that are there, or the one being inserted. */
module PageKeys {
  import opened BTreeShape
  import opened BTreePages
  import opened BTreeRebalance

  ghost predicate EntryKeys(es: seq<LeafEntry>, ks: iset<Key>) { forall i :: 0 <= i < |es| ==> es[i].key in ks }

  ghost predicate SepKeys(es: seq<InternalEntry>, ks: iset<Key>) { forall i :: 0 <= i < |es| ==> es[i].key in ks }

  ghost predicate KeysOn(page: Page, ks: iset<Key>) {
    (page.Internal? ==> SepKeys(page.seps, ks)) && (page.Leaf? ==> EntryKeys(page.entries, ks))
  }

  /** Every key on a page is one of these. */
  ghost predicate KeysIn(pages: map<PageId, Page>, ks: iset<Key>) {
    forall id :: id in pages ==> KeysOn(pages[id], ks)
  }

  lemma {:induction false} KeysRead(pages: map<PageId, Page>, ks: iset<Key>, id: PageId)
    requires KeysIn(pages, ks) && id in pages
    ensures KeysOn(pages[id], ks)
  {
  }

  lemma {:induction false} KeysWrite(pages: map<PageId, Page>, ks: iset<Key>, id: PageId, page: Page)
    requires KeysIn(pages, ks) && KeysOn(page, ks)
    ensures KeysIn(pages[id := page], ks)
  {
    hide KeysOn;
  }

  lemma {:induction false} KeysFree(pages: map<PageId, Page>, ks: iset<Key>, id: PageId)
    requires KeysIn(pages, ks)
    ensures KeysIn(pages - {id}, ks)
  {
    hide KeysOn;
  }

  lemma {:induction false} KeysWiden(pages: map<PageId, Page>, ks: iset<Key>, key: Key)
    requires KeysIn(pages, ks)
    ensures KeysIn(pages, ks + iset{key})
  {
    forall id | id in pages ensures KeysOn(pages[id], ks + iset{key}) {
      assert KeysOn(pages[id], ks);
    }
  }

  lemma {:induction false} EntryKeysInsert(es: seq<LeafEntry>, e: LeafEntry, ks: iset<Key>)
    requires EntryKeys(es, ks) && e.key in ks
    ensures EntryKeys(InsertEntry(es, e), ks)
  {
    hide LowerBound;
  }

  lemma {:induction false} EntryKeysRemove(es: seq<LeafEntry>, i: nat, ks: iset<Key>)
    requires EntryKeys(es, ks) && i < |es|
    ensures EntryKeys(RemoveAt(es, i), ks)
  {
  }

  lemma {:induction false} EntryKeysCut(es: seq<LeafEntry>, i: nat, ks: iset<Key>)
    requires EntryKeys(es, ks) && i <= |es|
    ensures EntryKeys(es[..i], ks) && EntryKeys(es[i..], ks)
  {
  }

  /** Both halves of a leaf, and the key that will separate them. */
  lemma {:induction false} HalvesKnown(es: seq<LeafEntry>, ks: iset<Key>)
    requires EntryKeys(es, ks) && |es| >= 2
    ensures EntryKeys(es[..|es| / 2], ks) && EntryKeys(es[|es| / 2..], ks) && es[|es| / 2].key in ks
  {
    EntryKeysCut(es, |es| / 2, ks);
  }

  lemma {:induction false} EntryKeysJoin(a: seq<LeafEntry>, b: seq<LeafEntry>, ks: iset<Key>)
    requires EntryKeys(a, ks) && EntryKeys(b, ks)
    ensures EntryKeys(a + b, ks)
  {
  }

  lemma {:induction false} SepKeysCut(es: seq<InternalEntry>, i: nat, ks: iset<Key>)
    requires SepKeys(es, ks) && i <= |es|
    ensures SepKeys(es[..i], ks) && SepKeys(es[i..], ks)
  {
  }

  lemma {:induction false} SepKeysJoin(a: seq<InternalEntry>, b: seq<InternalEntry>, ks: iset<Key>)
    requires SepKeys(a, ks) && SepKeys(b, ks)
    ensures SepKeys(a + b, ks)
  {
  }

  lemma {:induction false} SepKeysInsert(page: Page, key: Key, right: PageId, ks: iset<Key>)
    requires page.Internal? && KeysOn(page, ks) && key in ks
    ensures KeysOn(InsertSep(page, key, right), ks)
  {
    hide KeyBound, KeysOf;
  }

  lemma {:induction false} SepKeysSet(page: Page, a: nat, key: Key, ks: iset<Key>)
    requires page.Internal? && a < |page.seps| && KeysOn(page, ks) && key in ks
    ensures KeysOn(SetSep(page, a, key), ks)
  {
  }

  /** Dropping a separator and a child. */
  lemma {:induction false} SepKeysDrop(page: Page, a: nat, children: seq<PageId>, ks: iset<Key>)
    requires page.Internal? && a < |page.seps| && |children| == |page.seps| && KeysOn(page, ks)
    ensures KeysOn(IntPage(RemoveAt(KeysOf(page), a), children), ks)
  {
    var keys := RemoveAt(KeysOf(page), a);
    forall i | 0 <= i < |keys| ensures keys[i] in ks {
      assert keys[i] == if i < a then page.seps[i].key else page.seps[i + 1].key;
    }
  }

  lemma {:induction false} ThreeWrites(
      pages: map<PageId, Page>, ks: iset<Key>, a: PageId, pa: Page, b: PageId, pb: Page, c: PageId, pc: Page)
    requires KeysIn(pages, ks) && KeysOn(pa, ks) && KeysOn(pb, ks) && KeysOn(pc, ks)
    ensures KeysIn(pages[a := pa][b := pb][c := pc], ks)
  {
    hide KeysIn, KeysOn;
    KeysWrite(pages, ks, a, pa);
    KeysWrite(pages[a := pa], ks, b, pb);
    KeysWrite(pages[a := pa][b := pb], ks, c, pc);
  }

  /** A leaf gives its last or first entry away, and the key of entry k becomes
      the separator. */
  lemma {:induction false} LeafLends(donor: Page, taker: Page, parent: Page, k: nat, a: nat, ks: iset<Key>)
    requires donor.Leaf? && taker.Leaf? && parent.Internal? && k < |donor.entries| && a < |parent.seps|
    requires KeysOn(donor, ks) && KeysOn(taker, ks) && KeysOn(parent, ks)
    ensures EntryKeys(donor.entries[..|donor.entries| - 1], ks) && EntryKeys(donor.entries[1..], ks)
    ensures EntryKeys(InsertEntry(taker.entries, donor.entries[|donor.entries| - 1]), ks)
    ensures EntryKeys(InsertEntry(taker.entries, donor.entries[0]), ks)
    ensures KeysOn(SetSep(parent, a, donor.entries[k].key), ks)
  {
    hide InsertEntry, SetSep;
    EntryKeysCut(donor.entries, |donor.entries| - 1, ks);
    EntryKeysCut(donor.entries, 1, ks);
    EntryKeysInsert(taker.entries, donor.entries[|donor.entries| - 1], ks);
    EntryKeysInsert(taker.entries, donor.entries[0], ks);
    SepKeysSet(parent, a, donor.entries[k].key, ks);
  }

  /** An internal node gives its last or first separator to the parent, whose
      own comes down. */
  lemma {:induction false} NodeLends(donor: Page, taker: Page, parent: Page, k: nat, a: nat, low: PageId, ks: iset<Key>)
    requires donor.Internal? && taker.Internal? && parent.Internal? && k < |donor.seps| && a < |parent.seps|
    requires KeysOn(donor, ks) && KeysOn(taker, ks) && KeysOn(parent, ks)
    ensures SepKeys(donor.seps[..|donor.seps| - 1], ks) && SepKeys(donor.seps[1..], ks)
    ensures SepKeys([InternalEntry(parent.seps[a].key, low)] + taker.seps, ks)
    ensures SepKeys(taker.seps + [InternalEntry(parent.seps[a].key, low)], ks)
    ensures KeysOn(SetSep(parent, a, donor.seps[k].key), ks)
  {
    hide SetSep;
    SepKeysCut(donor.seps, |donor.seps| - 1, ks);
    SepKeysCut(donor.seps, 1, ks);
    SepKeysSet(parent, a, donor.seps[k].key, ks);
  }

  /** Two internal nodes and the separator between them in one row. */
  lemma {:induction false} NodesJoin(left: Page, right: Page, parent: Page, a: nat, low: PageId, ks: iset<Key>)
    requires left.Internal? && right.Internal? && parent.Internal? && a < |parent.seps|
    requires KeysOn(left, ks) && KeysOn(right, ks) && KeysOn(parent, ks)
    ensures SepKeys(left.seps + [InternalEntry(parent.seps[a].key, low)] + right.seps, ks)
  {
    SepKeysJoin(left.seps, [InternalEntry(parent.seps[a].key, low)], ks);
    SepKeysJoin(left.seps + [InternalEntry(parent.seps[a].key, low)], right.seps, ks);
  }
}
