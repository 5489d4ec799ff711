/** The two per-stream reads of the schema screen: the replication-key lookup
    behind the "Replication Key" dropdown (`validRepKeys`) and the "Include"
    checkbox. */
module Schema {
  import opened Catalog

  /** The index `indexToUpdate` holds after the scan: the last entry with an
      empty breadcrumb, or `None` (JavaScript `undefined`) when there is none. */
  function LastRootIndex(es: seq<MetadataEntry>): (r: Option<nat>)
    ensures r.Some? ==> r.value < |es| && IsRoot(es[r.value])
    ensures r.Some? ==> forall j :: r.value < j < |es| ==> !IsRoot(es[j])
    ensures r.None? <==> forall j :: 0 <= j < |es| ==> !IsRoot(es[j])
    decreases |es|
  {
    if es == [] then None
    else if IsRoot(es[|es| - 1]) then Some(|es| - 1)
    else LastRootIndex(es[..|es| - 1])
  }

  /** The entry `stream.metadata[indexToUpdate]`. */
  function RootEntry(es: seq<MetadataEntry>): Option<MetadataEntry>
  {
    match LastRootIndex(es)
    case None => None
    case Some(k) => Some(es[k])
  }

  /** What `validRepKeys` returns, or the TypeError it throws when no entry
      has an empty breadcrumb. */
  function RootRepKeys(s: Stream): (r: Result<Value>)
    ensures r.Err? ==> r.fault == NoRootEntry
    ensures r.Ok? ==> Truthy(r.value)
  {
    match RootEntry(s.metadata)
    case None => Err(NoRootEntry)
    case Some(e) => Ok(OrEmpty(Field(e.metadata, RepKeysField)))
  }

  /** `validRepKeys`: the forward scan that overwrites `indexToUpdate` at
      every root entry, then the read of that entry's replication keys. It
      takes the stream by value and modifies nothing. */
  method ValidRepKeys(stream: Stream) returns (r: Result<Value>)
    ensures r == RootRepKeys(stream)
  {
    var indexToUpdate: Option<nat> := None;
    var i := 0;
    while i < |stream.metadata|
      invariant 0 <= i <= |stream.metadata|
      invariant indexToUpdate == LastRootIndex(stream.metadata[..i])
    {
      if |stream.metadata[i].breadcrumb| == 0 {
        indexToUpdate := Some(i);
      }
      assert stream.metadata[..i + 1][..i] == stream.metadata[..i];
      i := i + 1;
    }
    assert stream.metadata[..i] == stream.metadata;
    match indexToUpdate
    case None =>
      r := Err(NoRootEntry);
    case Some(k) =>
      r := Ok(OrEmpty(Field(stream.metadata[k].metadata, RepKeysField)));
  }

  /** The "Include" checkbox: `!!stream.metadata[0].metadata.selected`. */
  function IncludeFlag(s: Stream): (r: Result<bool>)
    ensures r.Err? <==> s.metadata == []
    ensures r.Err? ==> r.fault == NoFirstEntry
  {
    if |s.metadata| == 0 then Err(NoFirstEntry)
    else Ok(Truthy(Field(s.metadata[0].metadata, SelectedField)))
  }

  /** Reference reading, for comparison only: the truthiness of the root
      entry's `selected` field, which is the entry `validRepKeys` consults. */
  function RootSelected(s: Stream): Result<bool>
  {
    match RootEntry(s.metadata)
    case None => Err(NoRootEntry)
    case Some(e) => Ok(Truthy(Field(e.metadata, SelectedField)))
  }

  /** The entries with an empty breadcrumb, in their original order. */
  function Roots(es: seq<MetadataEntry>): (r: seq<MetadataEntry>)
    ensures forall j :: 0 <= j < |r| ==> IsRoot(r[j])
    decreases |es|
  {
    if es == [] then []
    else if IsRoot(es[|es| - 1]) then Roots(es[..|es| - 1]) + [es[|es| - 1]]
    else Roots(es[..|es| - 1])
  }

  function WithEntries(s: Stream, es: seq<MetadataEntry>): Stream
  {
    Stream(s.stream, s.tapStreamId, es)
  }

  // ---------------------------------------------------------------------
  // The replication-key lookup

  /** A root entry with no root entry after it is the one the scan settles on. */
  lemma LastRootIndexIs(es: seq<MetadataEntry>, k: nat)
    requires k < |es| && IsRoot(es[k])
    requires forall j :: k < j < |es| ==> !IsRoot(es[j])
    ensures LastRootIndex(es) == Some(k)
  {
  }

  /** The last entry with an empty breadcrumb decides the result: its
      `valid-replication-keys`, or `[]` when that is falsy. */
  lemma LastRootEntryDecides(s: Stream, k: nat)
    requires k < |s.metadata| && IsRoot(s.metadata[k])
    requires forall j :: k < j < |s.metadata| ==> !IsRoot(s.metadata[j])
    ensures RootRepKeys(s) == Ok(OrEmpty(Field(s.metadata[k].metadata, RepKeysField)))
  {
  }

  /** With exactly one root entry, a truthy `valid-replication-keys` value of
      that entry is returned as it is. */
  lemma SingleRootDecides(s: Stream, k: nat)
    requires k < |s.metadata| && IsRoot(s.metadata[k])
    requires forall j :: 0 <= j < |s.metadata| && j != k ==> !IsRoot(s.metadata[j])
    requires Truthy(Field(s.metadata[k].metadata, RepKeysField))
    ensures RootRepKeys(s) == Ok(Field(s.metadata[k].metadata, RepKeysField))
  {
  }

  /** An absent or falsy `valid-replication-keys` on the deciding entry
      yields the empty list. */
  lemma FalsyKeysGiveEmpty(s: Stream, k: nat)
    requires k < |s.metadata| && IsRoot(s.metadata[k])
    requires forall j :: k < j < |s.metadata| ==> !IsRoot(s.metadata[j])
    requires RepKeysField !in s.metadata[k].metadata
             || !Truthy(s.metadata[k].metadata[RepKeysField])
    ensures RootRepKeys(s) == Ok(StrList([]))
  {
  }

  /** When several entries have an empty breadcrumb, every entry before the
      last of them, root or not, can be replaced without changing the result. */
  lemma EarlierEntriesIgnored(s: Stream, i: nat, j: nat, e: MetadataEntry)
    requires i < j < |s.metadata| && IsRoot(s.metadata[j])
    ensures RootRepKeys(WithEntries(s, s.metadata[i := e])) == RootRepKeys(s)
  {
    var es := s.metadata;
    var es' := es[i := e];
    var k := LastRootIndex(es).value;
    assert k >= j;
    LastRootIndexIs(es', k);
  }

  /** Replacing an entry whose breadcrumb is not empty by another such entry,
      whatever either holds, does not change the result. */
  lemma NonRootEntryIgnored(s: Stream, i: nat, e: MetadataEntry)
    requires i < |s.metadata| && !IsRoot(s.metadata[i]) && !IsRoot(e)
    ensures RootRepKeys(WithEntries(s, s.metadata[i := e])) == RootRepKeys(s)
  {
    var es := s.metadata;
    var es' := es[i := e];
    match LastRootIndex(es)
    case None =>
      assert forall j :: 0 <= j < |es'| ==> !IsRoot(es'[j]) by {
        forall j | 0 <= j < |es'| ensures !IsRoot(es'[j]) {
          if j != i { assert !IsRoot(es[j]); }
        }
      }
    case Some(k) =>
      LastRootIndexIs(es', k);
  }

  lemma {:induction false} RootEntryOfRoots(es: seq<MetadataEntry>)
    ensures RootEntry(Roots(es)) == RootEntry(es)
    decreases |es|
  {
    if es != [] {
      var n := |es|;
      var p, e := es[..n - 1], es[n - 1];
      RootEntryOfRoots(p);
      if IsRoot(e) {
        var rs := Roots(es);
        assert rs == Roots(p) + [e];
        LastRootIndexIs(rs, |rs| - 1);
        LastRootIndexIs(es, n - 1);
      } else {
        assert Roots(es) == Roots(p);
        match LastRootIndex(p)
        case None =>
          assert LastRootIndex(es) == None;
        case Some(k) =>
          LastRootIndexIs(es, k);
      }
    }
  }

  /** Entries with a non-empty breadcrumb never affect the result: dropping
      all of them, wherever they stand, gives the same answer. */
  lemma NonRootEntriesIgnored(s: Stream)
    ensures RootRepKeys(WithEntries(s, Roots(s.metadata))) == RootRepKeys(s)
  {
    RootEntryOfRoots(s.metadata);
  }

  /** The lookup throws exactly when no entry has an empty breadcrumb. */
  lemma MissingRootFails(s: Stream)
    ensures RootRepKeys(s).Err?
            <==> forall j :: 0 <= j < |s.metadata| ==> !IsRoot(s.metadata[j])
  {
  }

  // ---------------------------------------------------------------------
  // The "Include" checkbox

  /** The checkbox reads entry 0 alone: any other entry, the root entry
      included, can change without changing the flag. */
  lemma IncludeReadsFirstEntryOnly(s: Stream, i: nat, e: MetadataEntry)
    requires 0 < i < |s.metadata|
    ensures IncludeFlag(WithEntries(s, s.metadata[i := e])) == IncludeFlag(s)
  {
  }

  /** When the only root entry stands first, the checkbox shows the root
      entry's `selected`. */
  lemma IncludeAgreesWhenRootFirst(s: Stream)
    requires |s.metadata| > 0 && IsRoot(s.metadata[0])
    requires forall j :: 0 < j < |s.metadata| ==> !IsRoot(s.metadata[j])
    ensures IncludeFlag(s) == RootSelected(s)
  {
  }

  /** Even with exactly one root entry, the checkbox and the entry that
      `validRepKeys` consults can disagree on `selected` when the root entry
      is not first. */
  lemma IncludeMayDisagreeWithRoot()
    ensures exists s: Stream ::
      |s.metadata| == 2 && !IsRoot(s.metadata[0]) && IsRoot(s.metadata[1])
      && IncludeFlag(s) == Ok(true) && RootSelected(s) == Ok(false)
  {
    var child := MetadataEntry(["properties", "id"], map[SelectedField := Bool(true)]);
    var root := MetadataEntry([], map[SelectedField := Bool(false)]);
    var s := Stream("users", "users", [child, root]);
    LastRootIndexIs(s.metadata, 1);
    assert IncludeFlag(s) == Ok(true) && RootSelected(s) == Ok(false);
  }

  /** A stream whose single root entry is
      `{selected: true, "valid-replication-keys": ["updated_at"]}` offers
      `["updated_at"]` and is shown as included. */
  lemma SingleRootScenario()
    ensures var s := Stream("orders", "orders",
                            [MetadataEntry([], map[SelectedField := Bool(true),
                                                   RepKeysField := StrList(["updated_at"])])]);
            RootRepKeys(s) == Ok(StrList(["updated_at"])) && IncludeFlag(s) == Ok(true)
  {
  }
}
