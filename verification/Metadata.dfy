/** `TagMetadataCache` (src/metadata.rs): three hash maps that answer like a scan over the catalogue rows. */
module Metadata {
  import opened Options
  import opened Text

  /** A row of the catalogue query. */
  datatype CatalogRow = CatalogRow(nodeId: Option<string>, alias: Option<string>, tag: string,
      faultType: Option<string>)
  datatype TagMetadata = TagMetadata(faultType: Option<string>)
  datatype Cache = Cache(
    byNodeId: map<string, TagMetadata>, byAlias: map<string, TagMetadata>, byTag: map<string, TagMetadata>,
        entries: nat)

  /** The texts a lookup goes by: node id, alias, parsed tag and tag name of a sample. */
  datatype Probe = Probe(nodeId: string, alias: string, parsedTag: string, tagName: string)

  datatype Index = NodeIds | Aliases | Tags

  /** `clean_optional`. */
  function Clean(value: Option<string>): Option<string> {
    if value.Some? && Trim(Whitespace, value.value) != "" then Some(Trim(Whitespace, value.value)) else None
  }

  function KeyOf(row: CatalogRow, index: Index): Option<string> {
    match index
    case NodeIds => Clean(row.nodeId)
    case Aliases => Clean(row.alias)
    case Tags => Clean(Some(row.tag))
  }

  function MetadataOf(row: CatalogRow): TagMetadata {
    TagMetadata(Clean(row.faultType))
  }

  function MapOf(cache: Cache, index: Index): map<string, TagMetadata> {
    match index
    case NodeIds => cache.byNodeId
    case Aliases => cache.byAlias
    case Tags => cache.byTag
  }

  function Get(m: map<string, TagMetadata>, key: string): Option<TagMetadata> {
    if key in m then Some(m[key]) else None
  }

  /** The metadata of the last row with that key. */
  function LastRow(rows: seq<CatalogRow>, index: Index, key: string): Option<TagMetadata> {
    if rows == [] then None
    else
      var n := |rows| - 1;
      if KeyOf(rows[n], index) == Some(key) then Some(MetadataOf(rows[n])) else LastRow(rows[..n], index, key)
  }

  ghost predicate IsLast(rows: seq<CatalogRow>, index: Index, key: string, i: nat)
    requires i < |rows|
  {
    KeyOf(rows[i], index) == Some(key) && forall j :: i < j < |rows| ==> KeyOf(rows[j], index) != Some(key)
  }

  /** What `LastRow` finds: a row with the key and none with it behind, or no row with the key at all. */
  lemma {:induction false} LastRowMeans(rows: seq<CatalogRow>, index: Index, key: string)
    ensures LastRow(rows, index, key).None? <==> forall i :: 0 <= i < |rows| ==> KeyOf(rows[i], index) != Some(key)
    ensures forall i :: 0 <= i < |rows| && IsLast(rows, index, key, i) ==>
      LastRow(rows, index, key) == Some(MetadataOf(rows[i]))
  {
    hide KeyOf, MetadataOf;
    if rows != [] {
      var n := |rows| - 1;
      LastRowMeans(rows[..n], index, key);
      forall i | 0 <= i < n ensures IsLast(rows, index, key, i) ==> IsLast(rows[..n], index, key, i) {
        assert forall j :: i < j < n ==> rows[..n][j] == rows[j];
      }
    }
  }

  /** The cache was built from these rows. */
  ghost predicate Indexes(cache: Cache, rows: seq<CatalogRow>) {
    && cache.entries == |rows|
    && forall index, key :: Get(MapOf(cache, index), key) == LastRow(rows, index, key)
  }

  /** `from_rows`. */
  method FromRows(rows: seq<CatalogRow>) returns (cache: Cache)
    ensures Indexes(cache, rows)
  {
    hide Clean, LastRow;
    cache := Cache(map[], map[], map[], 0);
    NoRows();
    for i := 0 to |rows|
      invariant Indexes(cache, rows[..i])
    {
      ghost var before := cache;
      var row := rows[i];
      cache := cache.(entries := cache.entries + 1);
      var metadata := TagMetadata(Clean(row.faultType));
      var nodeId := Clean(row.nodeId);
      if nodeId.Some? {
        cache := cache.(byNodeId := cache.byNodeId[nodeId.value := metadata]);
      }
      var alias := Clean(row.alias);
      if alias.Some? {
        cache := cache.(byAlias := cache.byAlias[alias.value := metadata]);
      }
      var tag := Clean(Some(row.tag));
      if tag.Some? {
        cache := cache.(byTag := cache.byTag[tag.value := metadata]);
      }
      assert rows[..i + 1] == rows[..i] + [row];
      forall index, key ensures Get(MapOf(cache, index), key) == LastRow(rows[..i + 1], index, key) {
        NextRow(rows[..i], row, index, key);
        assert Get(MapOf(before, index), key) == LastRow(rows[..i], index, key);
      }
    }
    assert rows[..|rows|] == rows;
  }

  lemma NoRows()
    ensures forall index, key :: LastRow([], index, key) == None
  {
  }

  lemma NextRow(rows: seq<CatalogRow>, row: CatalogRow, index: Index, key: string)
    ensures LastRow(rows + [row], index, key)
         == if KeyOf(row, index) == Some(key) then Some(MetadataOf(row)) else LastRow(rows, index, key)
  {
    hide KeyOf, MetadataOf;
    assert (rows + [row])[..|rows|] == rows;
  }

  function OrLookup(a: Option<TagMetadata>, b: Option<TagMetadata>): Option<TagMetadata> {
    if a.Some? then a else b
  }

  /** `lookup`. */
  function Lookup(cache: Cache, p: Probe): Option<TagMetadata> {
    OrLookup(Get(cache.byNodeId, Trim(Whitespace, p.nodeId)),
             OrLookup(Get(cache.byAlias, Trim(Whitespace, p.alias)),
                      OrLookup(Get(cache.byTag, Trim(Whitespace, p.parsedTag)),
                          Get(cache.byTag, Trim(Whitespace, p.tagName)))))
  }

  /** How well a row answers a probe: by node id, alias, parsed tag, tag name, or not at all. */
  function Level(row: CatalogRow, p: Probe): nat {
    if KeyOf(row, NodeIds) == Some(Trim(Whitespace, p.nodeId)) then 0
    else if KeyOf(row, Aliases) == Some(Trim(Whitespace, p.alias)) then 1
    else if KeyOf(row, Tags) == Some(Trim(Whitespace, p.parsedTag)) then 2
    else if KeyOf(row, Tags) == Some(Trim(Whitespace, p.tagName)) then 3
    else 4
  }

  /** Row `i` answers the probe: no row answers better, and no later row as well. */
  ghost predicate Answers(rows: seq<CatalogRow>, p: Probe, i: nat) {
    && i < |rows| && Level(rows[i], p) < 4
    && (forall j :: 0 <= j < |rows| ==> Level(rows[i], p) <= Level(rows[j], p))
    && (forall j :: i < j < |rows| ==> Level(rows[i], p) < Level(rows[j], p))
  }

  /**
   The indexed lookup is the plain scan: it gives the metadata of the row that answers the probe, and nothing
   exactly when no row matches.
   */
  lemma LookupIsScan(cache: Cache, rows: seq<CatalogRow>, p: Probe)
    requires Indexes(cache, rows)
    ensures Lookup(cache, p).None? <==> forall i :: 0 <= i < |rows| ==> Level(rows[i], p) == 4
    ensures forall i: nat :: Answers(rows, p, i) ==> Lookup(cache, p) == Some(MetadataOf(rows[i]))
    ensures Lookup(cache, p).Some? ==> exists i: nat :: Answers(rows, p, i)
  {
    hide KeyOf, MetadataOf, LastRow, Level, ScanResult, Lookup;
    MapsAreScans(cache, rows, p);
    NoneMeans(rows, p);
    forall i: nat | Answers(rows, p, i) ensures Lookup(cache, p) == Some(MetadataOf(rows[i])) {
      AnswerIsFound(rows, p, i);
    }
    if Lookup(cache, p).Some? {
      forall j | 0 <= j < |rows| ensures Level(rows[j], p) <= 4 { LevelBound(rows[j], p); }
      var i := BestRow(rows, p);
    }
  }

  function ScanResult(rows: seq<CatalogRow>, p: Probe): Option<TagMetadata> {
    OrLookup(LastRow(rows, NodeIds, Trim(Whitespace, p.nodeId)),
             OrLookup(LastRow(rows, Aliases, Trim(Whitespace, p.alias)),
                      OrLookup(LastRow(rows, Tags, Trim(Whitespace, p.parsedTag)),
                          LastRow(rows, Tags, Trim(Whitespace, p.tagName)))))
  }

  lemma MapsAreScans(cache: Cache, rows: seq<CatalogRow>, p: Probe)
    requires Indexes(cache, rows)
    ensures Lookup(cache, p) == ScanResult(rows, p)
  {
    hide LastRow, Trim;
    assert Get(MapOf(cache, NodeIds), Trim(Whitespace, p.nodeId)) == LastRow(rows, NodeIds, Trim(Whitespace, p.nodeId));
    assert Get(MapOf(cache, Aliases), Trim(Whitespace, p.alias)) == LastRow(rows, Aliases, Trim(Whitespace, p.alias));
    assert Get(MapOf(cache, Tags), Trim(Whitespace, p.parsedTag)) == LastRow(rows, Tags, Trim(Whitespace, p.parsedTag));
    assert Get(MapOf(cache, Tags), Trim(Whitespace, p.tagName)) == LastRow(rows, Tags, Trim(Whitespace, p.tagName));
  }

  lemma ScanMeans(rows: seq<CatalogRow>, p: Probe)
    ensures LastRow(rows, NodeIds, Trim(Whitespace, p.nodeId)).None?
       <==> forall i :: 0 <= i < |rows| ==> KeyOf(rows[i], NodeIds) != Some(Trim(Whitespace, p.nodeId))
    ensures LastRow(rows, Aliases, Trim(Whitespace, p.alias)).None?
       <==> forall i :: 0 <= i < |rows| ==> KeyOf(rows[i], Aliases) != Some(Trim(Whitespace, p.alias))
    ensures LastRow(rows, Tags, Trim(Whitespace, p.parsedTag)).None?
       <==> forall i :: 0 <= i < |rows| ==> KeyOf(rows[i], Tags) != Some(Trim(Whitespace, p.parsedTag))
    ensures LastRow(rows, Tags, Trim(Whitespace, p.tagName)).None?
       <==> forall i :: 0 <= i < |rows| ==> KeyOf(rows[i], Tags) != Some(Trim(Whitespace, p.tagName))
  {
    hide KeyOf, LastRow, Trim;
    LastRowMeans(rows, NodeIds, Trim(Whitespace, p.nodeId));
    LastRowMeans(rows, Aliases, Trim(Whitespace, p.alias));
    LastRowMeans(rows, Tags, Trim(Whitespace, p.parsedTag));
    LastRowMeans(rows, Tags, Trim(Whitespace, p.tagName));
  }

  lemma NoneMeans(rows: seq<CatalogRow>, p: Probe)
    ensures ScanResult(rows, p).None? <==> forall i :: 0 <= i < |rows| ==> Level(rows[i], p) == 4
  {
    hide KeyOf, LastRow, Trim;
    ScanMeans(rows, p);
  }

  lemma AnswerIsFound(rows: seq<CatalogRow>, p: Probe, i: nat)
    requires Answers(rows, p, i)
    ensures ScanResult(rows, p) == Some(MetadataOf(rows[i]))
  {
    hide KeyOf, LastRow, Trim, MetadataOf;
    ScanMeans(rows, p);
    LevelMeans(rows, p, i);
    LastRowMeans(rows, NodeIds, Trim(Whitespace, p.nodeId));
    LastRowMeans(rows, Aliases, Trim(Whitespace, p.alias));
    LastRowMeans(rows, Tags, Trim(Whitespace, p.parsedTag));
    LastRowMeans(rows, Tags, Trim(Whitespace, p.tagName));
    var l := Level(rows[i], p);
    assert l == 0 ==> IsLast(rows, NodeIds, Trim(Whitespace, p.nodeId), i);
    assert l == 1 ==> IsLast(rows, Aliases, Trim(Whitespace, p.alias), i);
    assert l == 2 ==> IsLast(rows, Tags, Trim(Whitespace, p.parsedTag), i);
    assert l == 3 ==> IsLast(rows, Tags, Trim(Whitespace, p.tagName), i);
  }

  /** Below the level of the answering row no key matches, and at its level none behind it. */
  lemma LevelMeans(rows: seq<CatalogRow>, p: Probe, i: nat)
    requires Answers(rows, p, i)
    ensures var l := Level(rows[i], p);
      && (forall j :: 0 <= j < |rows| && (l > 0 || j > i) ==>
          KeyOf(rows[j], NodeIds) != Some(Trim(Whitespace, p.nodeId)))
      && (forall j :: 0 <= j < |rows| && (l > 1 || (l == 1 && j > i)) ==>
          KeyOf(rows[j], Aliases) != Some(Trim(Whitespace, p.alias)))
      && (forall j :: 0 <= j < |rows| && (l > 2 || (l == 2 && j > i)) ==>
          KeyOf(rows[j], Tags) != Some(Trim(Whitespace, p.parsedTag)))
      && (forall j :: 0 <= j < |rows| && l == 3 && j > i ==> KeyOf(rows[j], Tags) != Some(Trim(Whitespace, p.tagName)))
  {
    hide KeyOf, Trim;
    forall j | 0 <= j < |rows|
      ensures Level(rows[i], p) <= Level(rows[j], p)
        && (j > i ==> Level(rows[i], p) < Level(rows[j], p))
    {
    }
  }

  lemma {:induction false} BestRow(rows: seq<CatalogRow>, p: Probe) returns (i: nat)
    requires exists j :: 0 <= j < |rows| && Level(rows[j], p) < 4
    ensures Answers(rows, p, i)
  {
    hide Level;
    var n := |rows| - 1;
    if forall j :: 0 <= j < n ==> Level(rows[n], p) <= Level(rows[j], p) {
      i := n;
    } else {
      var k :| 0 <= k < n && Level(rows[k], p) < Level(rows[n], p);
      assert Level(rows[..n][k], p) < 4 by { LevelBound(rows[n], p); }
      i := BestRow(rows[..n], p);
      forall j | 0 <= j < n ensures rows[..n][j] == rows[j] { }
      assert Level(rows[..n][i], p) <= Level(rows[..n][k], p);
    }
  }

  lemma LevelBound(row: CatalogRow, p: Probe)
    ensures Level(row, p) <= 4
  {
  }

  /** A blank text never matches: cleaned keys are not blank. */
  lemma BlankMatchesNothing(rows: seq<CatalogRow>, index: Index)
    ensures LastRow(rows, index, "").None?
  {
    hide LastRow;
    LastRowMeans(rows, index, "");
  }

  // ---- told from the texts ----

  /** Both texts are the same between whitespace, and not blank. */
  ghost predicate SameText(x: Option<string>, key: string) {
    exists t :: x.Some? && Encloses(x.value, t) && Encloses(key, t)
  }

  /** The row's node id, alias or tag is the sample's, or its tag is the sample's tag name. */
  ghost predicate Fits(row: CatalogRow, p: Probe, level: nat) {
    match level
    case 0 => SameText(row.nodeId, p.nodeId)
    case 1 => SameText(row.alias, p.alias)
    case 2 => SameText(Some(row.tag), p.parsedTag)
    case 3 => SameText(Some(row.tag), p.tagName)
    case _ => false
  }

  /** Row `i` fits at a level at which no later row does, and no row fits at a lower level. */
  ghost predicate IsFound(rows: seq<CatalogRow>, p: Probe, i: nat, level: nat) {
    && i < |rows| && Fits(rows[i], p, level)
    && (forall j :: i < j < |rows| ==> !Fits(rows[j], p, level))
    && (forall j, l: nat :: 0 <= j < |rows| && l < level ==> !Fits(rows[j], p, l))
  }

  /** The metadata has the row's fault type, without whitespace around it, and none for a blank one. */
  ghost predicate HasFaultType(m: TagMetadata, row: CatalogRow) {
    match m.faultType
    case Some(t) => row.faultType.Some? && Encloses(row.faultType.value, t)
    case None => row.faultType.None? || IsBlank(row.faultType.value)
  }

  lemma CleanIs(value: Option<string>, key: string)
    ensures Clean(value) == Some(Trim(Whitespace, key)) <==> SameText(value, key)
  {
    hide Trim, Encloses;
    var t := Trim(Whitespace, key);
    TrimIs(key);
    if value.Some? {
      TrimIs(value.value);
      assert Trim(Whitespace, value.value) == t != "" ==> Encloses(value.value, t) && Encloses(key, t);
    }
  }

  lemma LevelIs(row: CatalogRow, p: Probe)
    ensures forall l: nat :: l < Level(row, p) ==> !Fits(row, p, l)
    ensures Level(row, p) < 4 ==> Fits(row, p, Level(row, p))
  {
    hide Clean, SameText, Trim;
    CleanIs(row.nodeId, p.nodeId);
    CleanIs(row.alias, p.alias);
    CleanIs(Some(row.tag), p.parsedTag);
    CleanIs(Some(row.tag), p.tagName);
  }

  lemma FaultTypeIs(row: CatalogRow)
    ensures HasFaultType(MetadataOf(row), row)
  {
    hide Trim, Encloses, IsBlank;
    if row.faultType.Some? { TrimIs(row.faultType.value); }
  }

  lemma FoundAnswers(rows: seq<CatalogRow>, p: Probe, i: nat)
    requires Answers(rows, p, i)
    ensures IsFound(rows, p, i, Level(rows[i], p))
  {
    hide Fits, Level;
    forall j | 0 <= j < |rows| ensures forall l: nat :: l < Level(rows[i], p) ==> !Fits(rows[j], p, l) {
      LevelIs(rows[j], p);
    }
    forall j | i < j < |rows| ensures !Fits(rows[j], p, Level(rows[i], p)) { LevelIs(rows[j], p); }
    LevelIs(rows[i], p);
  }

  /**
   A lookup gives the fault type of the last row with the sample's node id, or else its alias, its parsed tag or
   its tag name, and nothing exactly when no row has any of them.
   */
  lemma LookupFinds(cache: Cache, rows: seq<CatalogRow>, p: Probe)
    requires Indexes(cache, rows)
    ensures Lookup(cache, p).None? <==> forall i, l: nat :: 0 <= i < |rows| ==> !Fits(rows[i], p, l)
    ensures Lookup(cache, p).Some? ==>
      exists i: nat, l: nat :: IsFound(rows, p, i, l) && HasFaultType(Lookup(cache, p).value, rows[i])
  {
    hide Lookup, Level, Fits, Indexes, Answers, IsFound, HasFaultType, MetadataOf;
    LookupIsScan(cache, rows, p);
    if Lookup(cache, p).Some? {
      var i: nat :| Answers(rows, p, i);
      FoundAnswers(rows, p, i);
      AnswerInside(rows, p, i);
      FaultTypeIs(rows[i]);
    } else {
      forall i, l: nat | 0 <= i < |rows| ensures !Fits(rows[i], p, l) {
        LevelIs(rows[i], p);
        FourLevels(rows[i], p, l);
      }
    }
  }

  lemma AnswerInside(rows: seq<CatalogRow>, p: Probe, i: nat)
    requires Answers(rows, p, i)
    ensures i < |rows| && Level(rows[i], p) < 4 && Fits(rows[i], p, Level(rows[i], p))
  {
    hide Level, Fits;
    LevelIs(rows[i], p);
  }

  lemma FourLevels(row: CatalogRow, p: Probe, l: nat)
    ensures l >= 4 ==> !Fits(row, p, l)
  {
  }
}
