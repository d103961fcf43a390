/**
 * `buildTransactions`: indexes the attachments by email id and by thread id,
 * turns every ledger row with a truthy `Date` into a transaction carrying the
 * attachments its ids select plus a synthesised folder record, and sorts the
 * transactions newest first.
 */
module Transactions {
  import opened Text
  import opened Cells
  import opened Numbers
  import opened Seqs
  import opened StableSort
  import opened OrderedMap
  import opened FinanceTypes

  // ---------------------------------------------------------------------
  // The two attachment indexes
  // ---------------------------------------------------------------------

  /** Which id an index is keyed by. */
  datatype IndexBy = ByEmail | ByThread

  function KeyBy(a: FinanceAttachment, kind: IndexBy): string {
    match kind
    case ByEmail => a.emailId
    case ByThread => a.threadId
  }

  /**
   * The positions, in ascending order, of the first `n` attachments whose id
   * is `key`. An attachment is identified by its position, as `includes`
   * compares objects by identity.
   */
  function Positions(atts: seq<FinanceAttachment>, kind: IndexBy, key: string, n: nat): (ps: seq<nat>)
    requires n <= |atts|
    ensures forall i :: 0 <= i < |ps| ==> ps[i] < n && KeyBy(atts[ps[i]], kind) == key
    ensures forall p :: 0 <= p < n && KeyBy(atts[p], kind) == key ==> p in ps
    ensures forall i, j :: 0 <= i < j < |ps| ==> ps[i] < ps[j]
  {
    if n == 0 then []
    else Positions(atts, kind, key, n - 1) + if KeyBy(atts[n - 1], kind) == key then [n - 1] else []
  }

  /** The attachments at the given positions. */
  function Pick(atts: seq<FinanceAttachment>, ps: seq<nat>): (r: seq<FinanceAttachment>)
    requires forall i :: 0 <= i < |ps| ==> ps[i] < |atts|
    ensures |r| == |ps|
    ensures forall i :: 0 <= i < |ps| ==> r[i] == atts[ps[i]]
  {
    seq(|ps|, i requires 0 <= i < |ps| => atts[ps[i]])
  }

  /** What `index.get(key) ?? []` returns for an index whose lists are the positions of the attachments having that id. */
  function Matched(atts: seq<FinanceAttachment>, kind: IndexBy, key: string): seq<nat> {
    Positions(atts, kind, key, |atts|)
  }

  /** `map.get(key) ?? []`. */
  function Lookup(m: map<string, seq<nat>>, key: string): seq<nat> {
    if key in m then m[key] else []
  }

  /** An index as the `forEach` over the attachments leaves it after the first `n`. */
  ghost predicate IndexOf(m: map<string, seq<nat>>, atts: seq<FinanceAttachment>, kind: IndexBy, n: nat)
    requires n <= |atts|
  {
    && "" !in m
    && forall key :: key != "" ==> Lookup(m, key) == Positions(atts, kind, key, n)
  }

  /**
   * The `forEach` that fills `attachmentsByEmail` and `attachmentsByThread`:
   * afterwards each non-empty id maps to the attachments carrying it, in list
   * order, and the empty id is not indexed.
   */
  method IndexAttachments(atts: seq<FinanceAttachment>)
    returns (byEmail: map<string, seq<nat>>, byThread: map<string, seq<nat>>)
    ensures IndexOf(byEmail, atts, ByEmail, |atts|)
    ensures IndexOf(byThread, atts, ByThread, |atts|)
  {
    byEmail := map[];
    byThread := map[];
    for i := 0 to |atts|
      invariant IndexOf(byEmail, atts, ByEmail, i)
      invariant IndexOf(byThread, atts, ByThread, i)
    {
      var attachment := atts[i];
      if attachment.emailId != "" {
        byEmail := AddToIndex(byEmail, atts, ByEmail, i);
      } else {
        IndexSkips(byEmail, atts, ByEmail, i);
      }
      if attachment.threadId != "" {
        byThread := AddToIndex(byThread, atts, ByThread, i);
      } else {
        IndexSkips(byThread, atts, ByThread, i);
      }
    }
  }

  /** One step of the `forEach`: push attachment `i` onto the list of its id unless the list already holds it. */
  method AddToIndex(m: map<string, seq<nat>>, atts: seq<FinanceAttachment>, kind: IndexBy, i: nat)
    returns (m': map<string, seq<nat>>)
    requires i < |atts| && KeyBy(atts[i], kind) != ""
    requires IndexOf(m, atts, kind, i)
    ensures IndexOf(m', atts, kind, i + 1)
  {
    var key := KeyBy(atts[i], kind);
    var list := Lookup(m, key);
    if i !in list {
      list := list + [i];
    }
    m' := m[key := list];
    IndexGrows(m, atts, kind, i);
  }

  /** Pushing attachment `i` onto its id's list (unless present) indexes the first `i + 1` attachments. */
  lemma IndexGrows(m: map<string, seq<nat>>, atts: seq<FinanceAttachment>, kind: IndexBy, i: nat)
    requires i < |atts| && KeyBy(atts[i], kind) != ""
    requires IndexOf(m, atts, kind, i)
    ensures var key := KeyBy(atts[i], kind);
      var list := Lookup(m, key);
      IndexOf(m[key := if i in list then list else list + [i]], atts, kind, i + 1)
  {
    var key := KeyBy(atts[i], kind);
    var list := Lookup(m, key);
    var m' := m[key := if i in list then list else list + [i]];
    assert i !in list;
    assert Lookup(m', key) == Positions(atts, kind, key, i + 1);
    forall other | other != "" && other != key
      ensures Lookup(m', other) == Positions(atts, kind, other, i + 1)
    {
      assert Lookup(m', other) == Lookup(m, other);
      assert Positions(atts, kind, other, i + 1) == Positions(atts, kind, other, i) + [];
    }
  }

  /** An attachment whose id is empty leaves the index as it is. */
  lemma IndexSkips(m: map<string, seq<nat>>, atts: seq<FinanceAttachment>, kind: IndexBy, i: nat)
    requires i < |atts| && KeyBy(atts[i], kind) == ""
    requires IndexOf(m, atts, kind, i)
    ensures IndexOf(m, atts, kind, i + 1)
  {
    forall key | key != ""
      ensures Lookup(m, key) == Positions(atts, kind, key, i + 1)
    {
      assert Positions(atts, kind, key, i + 1) == Positions(atts, kind, key, i) + [];
    }
  }

  // ---------------------------------------------------------------------
  // The attachments of one transaction
  // ---------------------------------------------------------------------

  /** The key of `derivedAttachments`: `${attachment.link ?? attachment.drivePath}-${attachment.fileName}`. */
  function AttachmentKey(a: FinanceAttachment): string {
    (if a.link.Some? then a.link.value else a.drivePath) + "-" + a.fileName
  }

  /** The record synthesised for a non-empty `AttachmentFolder`. */
  function FolderRecord(emailId: string, threadId: string, folder: string): (a: FinanceAttachment)
    ensures a.link.Some? <==> IsHttpUrl(folder)
    ensures a.link.Some? ==> a.link.value == folder
    ensures a.fileName == folder && a.drivePath == folder && a.savedAt == None
  {
    FinanceAttachment(
      savedAt := None,
      emailId := emailId,
      threadId := threadId,
      fileName := folder,
      drivePath := folder,
      link := if IsHttpUrl(folder) then Some(folder) else None,
      vendorGuess := "",
      parsedAmount := None,
      notes := "")
  }

  /** `forEach((attachment) => derivedAttachments.set(key(attachment), attachment))` over a list of positions. */
  function PutAll(m: seq<Entry<FinanceAttachment>>, atts: seq<FinanceAttachment>, ps: seq<nat>): (r: seq<Entry<FinanceAttachment>>)
    requires UniqueKeys(m)
    requires forall i :: 0 <= i < |ps| ==> ps[i] < |atts|
    ensures UniqueKeys(r)
    decreases |ps|
  {
    if ps == [] then m
    else PutAll(Put(m, AttachmentKey(atts[ps[0]]), atts[ps[0]]), atts, ps[1..])
  }

  /** The `forEach` over one looked-up list. */
  method PutEach(m: seq<Entry<FinanceAttachment>>, atts: seq<FinanceAttachment>, ps: seq<nat>)
    returns (r: seq<Entry<FinanceAttachment>>)
    requires UniqueKeys(m)
    requires forall i :: 0 <= i < |ps| ==> ps[i] < |atts|
    ensures r == PutAll(m, atts, ps)
  {
    r := m;
    for i := 0 to |ps|
      invariant UniqueKeys(r)
      invariant PutAll(r, atts, ps[i..]) == PutAll(m, atts, ps)
    {
      assert ps[i..][1..] == ps[i + 1..];
      var attachment := atts[ps[i]];
      r := Put(r, AttachmentKey(attachment), attachment);
    }
  }

  /** The entries of `derivedAttachments` once the email list and then the thread list are in. */
  function SelectedEntries(atts: seq<FinanceAttachment>, emailId: string, threadId: string)
    : (r: seq<Entry<FinanceAttachment>>)
    ensures UniqueKeys(r)
  {
    var byEmail := if emailId != "" then PutAll([], atts, Matched(atts, ByEmail, emailId)) else [];
    if threadId != "" then PutAll(byEmail, atts, Matched(atts, ByThread, threadId)) else byEmail
  }

  /** The entries of `derivedAttachments` once the folder record is in as well. */
  function DerivedEntries(atts: seq<FinanceAttachment>, emailId: string, threadId: string, folder: string)
    : (r: seq<Entry<FinanceAttachment>>)
    ensures UniqueKeys(r)
  {
    var selected := SelectedEntries(atts, emailId, threadId);
    if folder != "" then Put(selected, folder + "-folder", FolderRecord(emailId, threadId, folder)) else selected
  }

  /** `Array.from(derivedAttachments.values())`. */
  function DerivedAttachments(atts: seq<FinanceAttachment>, emailId: string, threadId: string, folder: string)
    : seq<FinanceAttachment>
  {
    Values(DerivedEntries(atts, emailId, threadId, folder))
  }

  ghost function Keys<V>(m: seq<Entry<V>>): set<string> {
    set i | 0 <= i < |m| :: m[i].key
  }

  /** The keys of the attachments at the given positions. */
  ghost function KeySet(atts: seq<FinanceAttachment>, ps: seq<nat>): set<string>
    requires forall i :: 0 <= i < |ps| ==> ps[i] < |atts|
  {
    set i | 0 <= i < |ps| :: AttachmentKey(atts[ps[i]])
  }

  /** An entry keyed by its own attachment's key. */
  ghost predicate SelfKeyed(e: Entry<FinanceAttachment>) {
    e.key == AttachmentKey(e.value)
  }

  /** `set` adds its key to the key set and nothing else. */
  lemma PutKeys<V>(m: seq<Entry<V>>, k: string, v: V)
    requires UniqueKeys(m)
    ensures Keys(Put(m, k, v)) == Keys(m) + {k}
  {
    var r := Put(m, k, v);
    forall key | key in Keys(r)
      ensures key in Keys(m) + {k}
    {
      var i :| 0 <= i < |r| && r[i].key == key;
      if r[i] != Entry(k, v) {
        var j :| 0 <= j < |m| && m[j] == r[i];
      }
    }
    forall key | key in Keys(m) + {k}
      ensures key in Keys(r)
    {
      if key == k {
        var i :| 0 <= i < |r| && r[i] == Entry(k, v);
      } else {
        var j :| 0 <= j < |m| && m[j].key == key;
        var i :| 0 <= i < |r| && r[i] == m[j];
      }
    }
  }

  /** Setting the listed attachments adds exactly their keys. */
  lemma {:induction false} PutAllKeys(m: seq<Entry<FinanceAttachment>>, atts: seq<FinanceAttachment>, ps: seq<nat>)
    requires UniqueKeys(m)
    requires forall i :: 0 <= i < |ps| ==> ps[i] < |atts|
    ensures Keys(PutAll(m, atts, ps)) == Keys(m) + KeySet(atts, ps)
    decreases |ps|
  {
    if ps != [] {
      var a := atts[ps[0]];
      PutKeys(m, AttachmentKey(a), a);
      PutAllKeys(Put(m, AttachmentKey(a), a), atts, ps[1..]);
      KeySetCons(atts, ps);
    }
  }

  lemma KeySetCons(atts: seq<FinanceAttachment>, ps: seq<nat>)
    requires ps != [] && forall i :: 0 <= i < |ps| ==> ps[i] < |atts|
    ensures KeySet(atts, ps) == {AttachmentKey(atts[ps[0]])} + KeySet(atts, ps[1..])
  {
    forall key | key in KeySet(atts, ps)
      ensures key in {AttachmentKey(atts[ps[0]])} + KeySet(atts, ps[1..])
    {
      var i :| 0 <= i < |ps| && AttachmentKey(atts[ps[i]]) == key;
      if i > 0 {
        assert ps[1..][i - 1] == ps[i];
      }
    }
    forall key | key in KeySet(atts, ps[1..])
      ensures key in KeySet(atts, ps)
    {
      var i :| 0 <= i < |ps[1..]| && AttachmentKey(atts[ps[1..][i]]) == key;
      assert ps[i + 1] == ps[1..][i];
    }
  }

  /** Every entry after setting the listed attachments is an old one or a listed attachment under its own key. */
  lemma {:induction false} PutAllEntries(m: seq<Entry<FinanceAttachment>>, atts: seq<FinanceAttachment>, ps: seq<nat>)
    requires UniqueKeys(m)
    requires forall i :: 0 <= i < |ps| ==> ps[i] < |atts|
    ensures forall e :: e in PutAll(m, atts, ps) ==> e in m || (SelfKeyed(e) && e.value in Pick(atts, ps))
    decreases |ps|
  {
    if ps != [] {
      var a := atts[ps[0]];
      var m' := Put(m, AttachmentKey(a), a);
      PutAllEntries(m', atts, ps[1..]);
      forall e | e in PutAll(m, atts, ps)
        ensures e in m || (SelfKeyed(e) && e.value in Pick(atts, ps))
      {
        if e !in m' {
          var i :| 0 <= i < |Pick(atts, ps[1..])| && Pick(atts, ps[1..])[i] == e.value;
          assert Pick(atts, ps)[i + 1] == e.value;
        } else if e !in m {
          var i :| 0 <= i < |m'| && m'[i] == e;
          assert Pick(atts, ps)[0] == e.value;
        }
      }
    }
  }

  /** A transaction's attachments selected by its email id and thread id. */
  ghost predicate Selected(atts: seq<FinanceAttachment>, emailId: string, threadId: string, a: FinanceAttachment) {
    a in atts && ((emailId != "" && a.emailId == emailId) || (threadId != "" && a.threadId == threadId))
  }

  /** The keys `derivedAttachments` ends up with. */
  ghost function DerivedKeys(atts: seq<FinanceAttachment>, emailId: string, threadId: string, folder: string): set<string> {
    (if emailId != "" then KeySet(atts, Matched(atts, ByEmail, emailId)) else {})
    + (if threadId != "" then KeySet(atts, Matched(atts, ByThread, threadId)) else {})
    + (if folder != "" then {folder + "-folder"} else {})
  }

  /**
   * The keys of one transaction's attachment map: unique, and exactly the
   * keys of the attachments its email id and thread id select plus the
   * folder key when a folder is named.
   */
  lemma DerivedEntriesKeys(atts: seq<FinanceAttachment>, emailId: string, threadId: string, folder: string)
    ensures UniqueKeys(DerivedEntries(atts, emailId, threadId, folder))
    ensures Keys(DerivedEntries(atts, emailId, threadId, folder)) == DerivedKeys(atts, emailId, threadId, folder)
  {
    SelectedEntriesMeaning(atts, emailId, threadId);
    if folder != "" {
      PutKeys(SelectedEntries(atts, emailId, threadId), folder + "-folder", FolderRecord(emailId, threadId, folder));
    }
  }

  /**
   * Every entry of one transaction's attachment map is the folder record or
   * a selected attachment under its own key, and the folder record is there
   * whenever a folder is named.
   */
  lemma DerivedEntriesProvenance(atts: seq<FinanceAttachment>, emailId: string, threadId: string, folder: string)
    ensures var es := DerivedEntries(atts, emailId, threadId, folder);
      && (forall i :: 0 <= i < |es| ==>
            (folder != "" && es[i] == Entry(folder + "-folder", FolderRecord(emailId, threadId, folder)))
            || (SelfKeyed(es[i]) && Selected(atts, emailId, threadId, es[i].value)))
      && (folder != "" ==> Entry(folder + "-folder", FolderRecord(emailId, threadId, folder)) in es)
  {
    var selected := SelectedEntries(atts, emailId, threadId);
    var es := DerivedEntries(atts, emailId, threadId, folder);
    SelectedEntriesMeaning(atts, emailId, threadId);
    forall i | 0 <= i < |es|
      ensures (folder != "" && es[i] == Entry(folder + "-folder", FolderRecord(emailId, threadId, folder)))
              || (SelfKeyed(es[i]) && Selected(atts, emailId, threadId, es[i].value))
    {
      if folder == "" || es[i] != Entry(folder + "-folder", FolderRecord(emailId, threadId, folder)) {
        assert es[i] in selected;
      }
    }
  }

  /** Before the folder: the keys of the selected attachments, each under its own key. */
  lemma SelectedEntriesMeaning(atts: seq<FinanceAttachment>, emailId: string, threadId: string)
    ensures Keys(SelectedEntries(atts, emailId, threadId)) == DerivedKeys(atts, emailId, threadId, "")
    ensures forall e :: e in SelectedEntries(atts, emailId, threadId) ==>
      SelfKeyed(e) && Selected(atts, emailId, threadId, e.value)
  {
    var emailPs := Matched(atts, ByEmail, emailId);
    var threadPs := Matched(atts, ByThread, threadId);
    var byEmail := if emailId != "" then PutAll([], atts, emailPs) else [];
    var selected := SelectedEntries(atts, emailId, threadId);
    assert Keys<FinanceAttachment>([]) == {};
    if emailId != "" {
      PutAllKeys([], atts, emailPs);
      PutAllEntries([], atts, emailPs);
      PickedSelected(atts, emailPs, ByEmail, emailId, threadId);
    }
    if threadId != "" {
      PutAllKeys(byEmail, atts, threadPs);
      PutAllEntries(byEmail, atts, threadPs);
      PickedSelected(atts, threadPs, ByThread, emailId, threadId);
    }
  }

  /** The attachments an index lists for a non-empty id are selected by that id. */
  lemma PickedSelected(atts: seq<FinanceAttachment>, ps: seq<nat>, kind: IndexBy, emailId: string, threadId: string)
    requires ps == Matched(atts, kind, if kind == ByEmail then emailId else threadId)
    requires (if kind == ByEmail then emailId else threadId) != ""
    ensures forall a :: a in Pick(atts, ps) ==> Selected(atts, emailId, threadId, a)
  {
    forall a | a in Pick(atts, ps)
      ensures Selected(atts, emailId, threadId, a)
    {
      var i :| 0 <= i < |Pick(atts, ps)| && Pick(atts, ps)[i] == a;
      assert a == atts[ps[i]];
    }
  }

  /**
   * The same facts on the list a transaction carries: no two attachments other
   * than the folder record share a key, each is the folder record or a
   * selected attachment, and the folder record is present iff a folder is
   * named (when no folder is named every attachment is a selected one).
   */
  lemma DerivedAttachmentsMeaning(atts: seq<FinanceAttachment>, emailId: string, threadId: string, folder: string)
    ensures var r := DerivedAttachments(atts, emailId, threadId, folder);
      var folderRecord := FolderRecord(emailId, threadId, folder);
      && (forall i, j :: 0 <= i < j < |r| && r[i] != folderRecord && r[j] != folderRecord ==>
            AttachmentKey(r[i]) != AttachmentKey(r[j]))
      && (forall a :: a in r ==> (folder != "" && a == folderRecord) || Selected(atts, emailId, threadId, a))
      && (folder != "" ==> folderRecord in r)
  {
    DerivedKeysDistinct(atts, emailId, threadId, folder);
    DerivedAttachmentsProvenance(atts, emailId, threadId, folder);
  }

  lemma DerivedKeysDistinct(atts: seq<FinanceAttachment>, emailId: string, threadId: string, folder: string)
    ensures var r := DerivedAttachments(atts, emailId, threadId, folder);
      var folderRecord := FolderRecord(emailId, threadId, folder);
      forall i, j :: 0 <= i < j < |r| && r[i] != folderRecord && r[j] != folderRecord ==>
        AttachmentKey(r[i]) != AttachmentKey(r[j])
  {
    var es := DerivedEntries(atts, emailId, threadId, folder);
    var r := DerivedAttachments(atts, emailId, threadId, folder);
    var folderRecord := FolderRecord(emailId, threadId, folder);
    DerivedEntriesKeys(atts, emailId, threadId, folder);
    DerivedEntriesProvenance(atts, emailId, threadId, folder);
    forall i, j | 0 <= i < j < |r| && r[i] != folderRecord && r[j] != folderRecord
      ensures AttachmentKey(r[i]) != AttachmentKey(r[j])
    {
      assert r[i] == es[i].value && r[j] == es[j].value;
      assert SelfKeyed(es[i]) && SelfKeyed(es[j]);
      assert es[i].key != es[j].key;
    }
  }

  lemma DerivedAttachmentsProvenance(atts: seq<FinanceAttachment>, emailId: string, threadId: string, folder: string)
    ensures var r := DerivedAttachments(atts, emailId, threadId, folder);
      var folderRecord := FolderRecord(emailId, threadId, folder);
      && (forall a :: a in r ==> (folder != "" && a == folderRecord) || Selected(atts, emailId, threadId, a))
      && (folder != "" ==> folderRecord in r)
  {
    var es := DerivedEntries(atts, emailId, threadId, folder);
    var r := DerivedAttachments(atts, emailId, threadId, folder);
    var folderRecord := FolderRecord(emailId, threadId, folder);
    DerivedEntriesProvenance(atts, emailId, threadId, folder);
    forall a | a in r
      ensures (folder != "" && a == folderRecord) || Selected(atts, emailId, threadId, a)
    {
      var i :| 0 <= i < |r| && r[i] == a;
      assert es[i].value == a;
    }
    if folder != "" {
      var i :| 0 <= i < |es| && es[i] == Entry(folder + "-folder", folderRecord);
      assert r[i] == folderRecord;
    }
  }

  /**
   * The key is a plain concatenation, so two different attachments can share
   * it: a link `"a-b"` with file `"c"` and a link `"a"` with file `"b-c"` both
   * give `"a-b-c"`, and the later one replaces the earlier.
   */
  lemma KeysCanCollide()
    ensures var first := FinanceAttachment(None, "m", "", "c", "", Some("a-b"), "", None, "");
      var second := FinanceAttachment(None, "m", "", "b-c", "", Some("a"), "", None, "");
      && AttachmentKey(first) == AttachmentKey(second)
      && DerivedAttachments([first, second], "m", "", "") == [second]
  {
    var first := FinanceAttachment(None, "m", "", "c", "", Some("a-b"), "", None, "");
    var second := FinanceAttachment(None, "m", "", "b-c", "", Some("a"), "", None, "");
    CollidingKeys(first, second);
    LaterSameKeyReplaces(first, second, "m");
  }

  /** Of two attachments of one email sharing a key, only the later one is kept. */
  lemma LaterSameKeyReplaces(first: FinanceAttachment, second: FinanceAttachment, emailId: string)
    requires emailId != "" && first.emailId == emailId && second.emailId == emailId
    requires AttachmentKey(first) == AttachmentKey(second)
    ensures DerivedAttachments([first, second], emailId, "", "") == [second]
  {
    var atts := [first, second];
    var key := AttachmentKey(first);
    BothMatched(first, second, emailId);
    var once := Put([], key, first);
    assert once == [Entry(key, first)];
    var twice := Put(once, key, second);
    assert once[1..] == [];
    assert twice == [Entry(key, second)];
    assert [1][1..] == [] && [0, 1][1..] == [1];
    assert PutAll(once, atts, [1]) == twice by {
      assert PutAll(once, atts, [1]) == PutAll(twice, atts, []);
    }
    assert PutAll([], atts, [0, 1]) == PutAll(once, atts, [1]);
    assert SelectedEntries(atts, emailId, "") == twice;
    assert DerivedEntries(atts, emailId, "", "") == twice;
    assert Values(twice) == [second];
  }

  lemma BothMatched(first: FinanceAttachment, second: FinanceAttachment, emailId: string)
    requires first.emailId == emailId && second.emailId == emailId
    ensures Matched([first, second], ByEmail, emailId) == [0, 1]
  {
    assert Positions([first, second], ByEmail, emailId, 1) == [0];
  }

  /**
   * The folder record is stored under `${folder}-folder`, while its own key
   * is `${folder}-${folder}`. A selected attachment whose link or drive path
   * and whose file name are both the folder therefore stays beside the
   * folder record with the same key.
   */
  lemma FolderRecordBesideSameKey(a: FinanceAttachment, emailId: string, folder: string)
    requires emailId != "" && a.emailId == emailId
    requires folder != "" && folder != "folder"
    requires AttachmentKey(a) == folder + "-" + folder
    ensures AttachmentKey(FolderRecord(emailId, "", folder)) == AttachmentKey(a)
    ensures DerivedAttachments([a], emailId, "", folder) == [a, FolderRecord(emailId, "", folder)]
  {
    var key := AttachmentKey(a);
    var record := FolderRecord(emailId, "", folder);
    var folderKey := folder + "-folder";
    var once := [Entry(key, a)];
    OneSelected(a, emailId);
    SuffixDiffers(folder + "-", folder, "folder");
    assert once[1..] == [];
    assert Put(once, folderKey, record) == [Entry(key, a), Entry(folderKey, record)];
    assert Values([Entry(key, a), Entry(folderKey, record)]) == [a, record];
  }

  /** The only attachment of an email is selected under its own key. */
  lemma OneSelected(a: FinanceAttachment, emailId: string)
    requires emailId != "" && a.emailId == emailId
    ensures SelectedEntries([a], emailId, "") == [Entry(AttachmentKey(a), a)]
  {
    var once := Put([], AttachmentKey(a), a);
    assert Positions([a], ByEmail, emailId, 0) == [];
    assert Matched([a], ByEmail, emailId) == [0];
    assert once == [Entry(AttachmentKey(a), a)];
    assert [0][1..] == [];
    assert PutAll([], [a], [0]) == PutAll(once, [a], []);
  }

  lemma SuffixDiffers(prefix: string, s: string, t: string)
    requires s != t
    ensures prefix + s != prefix + t
  {
    assert (prefix + s)[|prefix|..] == s;
    assert (prefix + t)[|prefix|..] == t;
  }

  /** An attachment with drive path and file name `"X"` next to the folder record of folder `"X"`: both have key `"X-X"`. */
  lemma FolderKeyCollides()
    ensures var a := FinanceAttachment(None, "m", "", "X", "X", None, "v", None, "");
      var record := FolderRecord("m", "", "X");
      && a != record
      && AttachmentKey(a) == "X-X" && AttachmentKey(record) == "X-X"
      && DerivedAttachments([a], "m", "", "X") == [a, record]
  {
    var a := FinanceAttachment(None, "m", "", "X", "X", None, "v", None, "");
    assert AttachmentKey(a) == "X" + "-" + "X" == "X-X";
    assert |"X"| != |"folder"|;
    assert FolderRecord("m", "", "X").vendorGuess == "";
    FolderRecordBesideSameKey(a, "m", "X");
  }

  lemma CollidingKeys(first: FinanceAttachment, second: FinanceAttachment)
    requires first.link == Some("a-b") && first.fileName == "c"
    requires second.link == Some("a") && second.fileName == "b-c"
    ensures AttachmentKey(first) == "a-b-c" && AttachmentKey(second) == "a-b-c"
  {
    assert "a-b" + "-" + "c" == "a-b-c";
    assert "a" + "-" + "b-c" == "a-b-c";
  }

  // ---------------------------------------------------------------------
  // Rows to transactions
  // ---------------------------------------------------------------------

  /** `filter((row) => row.Date)`. */
  predicate HasDate(row: Row) {
    Truthy(Field(row, "Date"))
  }

  /** `String(row.EmailId ?? row.ThreadId ?? `tx-${index}`)`, untrimmed. */
  function TransactionId(row: Row, index: nat): string {
    Show(Coalesce(Coalesce(Field(row, "EmailId"), Field(row, "ThreadId")), Str("tx-" + NatToString(index))))
  }

  /** The object literal the `map` returns for the kept row at position `index`, given its attachment list. */
  function TransactionWith(row: Row, index: nat, attachments: seq<FinanceAttachment>, readDate: DateReader)
    : FinanceTransaction
  {
    var count := NumberFormatter(Field(row, "AttachmentCount"));
    FinanceTransaction(
      id := TransactionId(row, index),
      date := NormaliseDate(Field(row, "Date"), readDate),
      account := TextField(row, "Account"),
      txType := TextField(row, "Type"),
      payee := TextField(row, "Payee"),
      memo := TextField(row, "Memo"),
      category := TextField(row, "Category"),
      subcategory := TextField(row, "Subcategory"),
      amount := NumberFormatter(Field(row, "Amount")),
      gstHst := NumberFormatter(Field(row, "GST/HST")),
      tip := NumberFormatter(Field(row, "Tip")),
      total := NumberFormatter(Coalesce(Field(row, "Total"), Field(row, "Amount"))),
      source := TextField(row, "Source"),
      emailId := TextField(row, "EmailId"),
      threadId := TextField(row, "ThreadId"),
      attachmentFolder := TextField(row, "AttachmentFolder"),
      attachmentCount := if count.Some? then count.value else 0.0,
      status := TextField(row, "Status"),
      notes := TextField(row, "Notes"),
      month := TextField(row, "Month"),
      attachments := attachments)
  }

  /** The transaction the `map` builds from the kept row at position `index`. */
  function TransactionOf(row: Row, index: nat, atts: seq<FinanceAttachment>, readDate: DateReader): FinanceTransaction {
    var attachments := DerivedAttachments(atts, TextField(row, "EmailId"), TextField(row, "ThreadId"),
                                          TextField(row, "AttachmentFolder"));
    TransactionWith(row, index, attachments, readDate)
  }

  /** `.map((row, index) => ...)` over the kept rows. */
  function Projected(kept: seq<Row>, atts: seq<FinanceAttachment>, readDate: DateReader): seq<FinanceTransaction> {
    MapIndexed(kept, Builder(atts, readDate))
  }

  /** The callback of that `map`. */
  function Builder(atts: seq<FinanceAttachment>, readDate: DateReader): (Row, nat) -> FinanceTransaction {
    (row: Row, index: nat) => TransactionOf(row, index, atts, readDate)
  }

  /** `buildTransactions(rows, attachments)`. */
  function TransactionsOf(rows: seq<Row>, atts: seq<FinanceAttachment>, readDate: DateReader): seq<FinanceTransaction> {
    Sort(Projected(Filter(HasDate, rows), atts, readDate), TransactionBefore)
  }

  /** The `derivedAttachments` map of one row, filled from the two indexes and the folder. */
  method DeriveAttachments(atts: seq<FinanceAttachment>, byEmail: map<string, seq<nat>>, byThread: map<string, seq<nat>>,
                           emailId: string, threadId: string, folder: string)
    returns (attachments: seq<FinanceAttachment>)
    requires IndexOf(byEmail, atts, ByEmail, |atts|) && IndexOf(byThread, atts, ByThread, |atts|)
    ensures attachments == DerivedAttachments(atts, emailId, threadId, folder)
  {
    var derived: seq<Entry<FinanceAttachment>> := [];
    if emailId != "" {
      derived := PutEach(derived, atts, Lookup(byEmail, emailId));
    }
    if threadId != "" {
      derived := PutEach(derived, atts, Lookup(byThread, threadId));
    }
    if folder != "" {
      derived := Put(derived, folder + "-folder", FolderRecord(emailId, threadId, folder));
    }
    attachments := Values(derived);
  }

  /** The body of the `map` for one kept row, reading the attachment lists from the indexes. */
  method BuildTransaction(row: Row, index: nat, atts: seq<FinanceAttachment>,
                          byEmail: map<string, seq<nat>>, byThread: map<string, seq<nat>>, readDate: DateReader)
    returns (tx: FinanceTransaction)
    requires IndexOf(byEmail, atts, ByEmail, |atts|) && IndexOf(byThread, atts, ByThread, |atts|)
    ensures tx == TransactionOf(row, index, atts, readDate)
  {
    var emailId := TextField(row, "EmailId");
    var threadId := TextField(row, "ThreadId");
    var folder := TextField(row, "AttachmentFolder");
    var attachments := DeriveAttachments(atts, byEmail, byThread, emailId, threadId, folder);
    tx := TransactionWith(row, index, attachments, readDate);
  }

  /** `buildTransactions`: index the attachments, build one transaction per dated row, sort newest first. */
  method BuildTransactions(rows: seq<Row>, atts: seq<FinanceAttachment>, readDate: DateReader)
    returns (txs: seq<FinanceTransaction>)
    ensures txs == TransactionsOf(rows, atts, readDate)
  {
    var byEmail, byThread := IndexAttachments(atts);
    txs := [];
    for i := 0 to |rows|
      invariant txs == Projected(Filter(HasDate, rows[..i]), atts, readDate)
    {
      var row := rows[i];
      PrefixSnoc(rows, i);
      FilterSnoc(HasDate, rows[..i], row);
      if !HasDate(row) {
        continue;
      }
      ghost var kept := Filter(HasDate, rows[..i]);
      assert |txs| == |kept|;
      var tx := BuildTransaction(row, |txs|, atts, byEmail, byThread, readDate);
      assert tx == Builder(atts, readDate)(row, |kept|);
      MapIndexedSnoc(kept, row, Builder(atts, readDate));
      txs := txs + [tx];
    }
    assert rows[..|rows|] == rows;
    txs := Sort(txs, TransactionBefore);
  }

  // ---------------------------------------------------------------------
  // What buildTransactions promises
  // ---------------------------------------------------------------------

  /**
   * One transaction per row with a truthy `Date` and no other: the output is
   * a permutation of the kept rows' transactions, the `k`-th kept row's
   * transaction built with index `k`.
   */
  lemma TransactionsFromDatedRows(rows: seq<Row>, atts: seq<FinanceAttachment>, readDate: DateReader)
    ensures var out := TransactionsOf(rows, atts, readDate);
      var kept := Filter(HasDate, rows);
      && |out| == |kept|
      && multiset(out) == multiset(Projected(kept, atts, readDate))
      && (forall tx :: tx in out <==> tx in Projected(kept, atts, readDate))
  {
    var out := TransactionsOf(rows, atts, readDate);
    var built := Projected(Filter(HasDate, rows), atts, readDate);
    SortPermutes(built, TransactionBefore);
    forall tx
      ensures tx in out <==> tx in built
    {
      SortMembers(built, TransactionBefore, tx);
    }
  }

  /**
   * The order of the output: newest first, every undated transaction after
   * every dated one, and the undated ones in row order.
   */
  lemma TransactionsNewestFirst(rows: seq<Row>, atts: seq<FinanceAttachment>, readDate: DateReader)
    ensures var out := TransactionsOf(rows, atts, readDate);
      var built := Projected(Filter(HasDate, rows), atts, readDate);
      && (forall i, j :: 0 <= i < j < |out| && out[j].date.Some? ==>
            out[i].date.Some? && out[i].date.value >= out[j].date.value)
      && Filter((tx: FinanceTransaction) => tx.date.None?, out)
         == Filter((tx: FinanceTransaction) => tx.date.None?, built)
  {
    var out := TransactionsOf(rows, atts, readDate);
    var built := Projected(Filter(HasDate, rows), atts, readDate);
    TransactionOrderConsistent();
    SortSorted(built, TransactionBefore);
    forall i, j | 0 <= i < j < |out| && out[j].date.Some?
      ensures out[i].date.Some? && out[i].date.value >= out[j].date.value
    {
      NewestFirstMeaning(out[i].date, out[j].date);
    }
    SortStable(built, TransactionBefore, (tx: FinanceTransaction) => tx.date.None?);
  }

  /**
   * The id: the raw `EmailId` whenever that column holds a value other than
   * `null`/`undefined` (so an empty cell gives the id `""`), else the raw
   * `ThreadId` on the same terms, else `tx-<index>`; the fallback ids of two
   * kept rows differ.
   */
  lemma TransactionIdChain(row: Row, index: nat, other: nat)
    ensures Field(row, "EmailId").Str? ==> TransactionId(row, index) == Field(row, "EmailId").s
    ensures Nullish(Field(row, "EmailId")) && Field(row, "ThreadId").Str? ==>
      TransactionId(row, index) == Field(row, "ThreadId").s
    ensures Nullish(Field(row, "EmailId")) && Nullish(Field(row, "ThreadId")) ==>
      TransactionId(row, index) == "tx-" + NatToString(index)
      && (index != other ==> TransactionId(row, index) != TransactionId(row, other))
  {
    if index != other && Nullish(Field(row, "EmailId")) && Nullish(Field(row, "ThreadId")) {
      NatToStringInjective(index, other);
      assert ("tx-" + NatToString(index))[3..] == NatToString(index);
      assert ("tx-" + NatToString(other))[3..] == NatToString(other);
    }
  }

  /**
   * The numeric fields: `total` reads `Total` unless that column is
   * `null`/`undefined`, in which case it reads `Amount`; `attachmentCount` is
   * the parsed count or 0; a truthy `Date` the host cannot read gives no date.
   */
  lemma TransactionFields(row: Row, index: nat, atts: seq<FinanceAttachment>, readDate: DateReader)
    requires HasDate(row)
    ensures var tx := TransactionOf(row, index, atts, readDate);
      && tx.total == (if Nullish(Field(row, "Total")) then tx.amount else NumberFormatter(Field(row, "Total")))
      && (NumberFormatter(Field(row, "AttachmentCount")).None? ==> tx.attachmentCount == 0.0)
      && (NumberFormatter(Field(row, "AttachmentCount")).Some? ==>
            tx.attachmentCount == NumberFormatter(Field(row, "AttachmentCount")).value)
      && tx.date == readDate(Field(row, "Date"))
      && tx.attachments == DerivedAttachments(atts, tx.emailId, tx.threadId, tx.attachmentFolder)
  {
  }
}
