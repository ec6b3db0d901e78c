/**
  The tagset index: a two-level dictionary from tagset name to (tag name to
  colour), changed in place by guarded add and delete operations that never
  overwrite an existing entry.

  The first half of the module states each mutator as a function on map
  values and proves what it promises; the class TagsetIndex holds the
  dictionary in a field and its methods follow the source's branches, each
  proved to leave the field equal to the corresponding function of its old
  value.
 */
module Indexes {

  /** A colour (System.Drawing.Color). The index stores colours and never looks inside one. */
  type Color

  datatype Option<T> = None | Some(value: T)

  /** One tagset: tag name -> colour. */
  type Tagset = map<string, Color>

  /** The whole index: tagset name -> tagset. */
  type Collection = map<string, Tagset>

  /** The tagset seeded when there is no index file, and its six tag names. */
  const DefaultTagsetName := "default"
  const DefaultTags: seq<string> := ["JobSearch", "CodeHelp", "FCCBug", "SoftwareSupport", "OSSelection", "Meeting"]

  // ---------------------------------------------------------------------
  // The mutators on values

  /** AddIndexEntry: a new tagset name gets the given tagset (an empty one for
      null); a name already present keeps what it has. */
  function AddEntry(c: Collection, key: string, value: Option<Tagset>): (r: Collection)
    ensures r.Keys == c.Keys + {key}
    ensures forall k :: k in c ==> r[k] == c[k]
    ensures key !in c && value.None? ==> r[key] == map[]
    ensures key !in c && value.Some? ==> r[key] == value.value
  {
    if key in c then c
    else if value.None? then c[key := map[]]
    else c[key := value.value]
  }

  /** AddInnerIndexEntry: a new tag under an existing tagset; nothing happens when
      the tagset is missing or already has the tag. */
  function AddInner(c: Collection, key: string, inkey: string, color: Color): Collection
  {
    if key in c && inkey !in c[key] then c[key := c[key][inkey := color]] else c
  }

  /** DeleteIndexEntry: the tagset and all its tags go; every other tagset stays. */
  function DeleteEntry(c: Collection, key: string): (r: Collection)
    ensures r.Keys == c.Keys - {key}
    ensures forall k :: k in r ==> r[k] == c[k]
  {
    if key in c then c - {key} else c
  }

  /** What DeleteInnerIndexEntry is evidently meant to do: remove one tag from
      one tagset, and nothing else. */
  function DeleteInner(c: Collection, key: string, inkey: string): (r: Collection)
    ensures r.Keys == c.Keys
    ensures forall k :: k in c && k != key ==> r[k] == c[k]
    ensures key in c ==> r[key].Keys == c[key].Keys - {inkey}
    ensures key in c ==> forall t :: t in r[key] ==> r[key][t] == c[key][t]
  {
    if key in c && inkey in c[key] then c[key := c[key] - {inkey}] else c
  }

  /** InitializeIndex: AddEntry(k, null) for each k of the list, in order. */
  function AddEntries(c: Collection, keys: seq<string>): (r: Collection)
    decreases |keys|
  {
    if keys == [] then c
    else AddEntry(AddEntries(c, keys[..|keys| - 1]), keys[|keys| - 1], None)
  }

  /** The loop of AddDefaultTagset: AddInner(key, tags[i], colors[i]) for each i, in order. */
  function AddInners(c: Collection, key: string, tags: seq<string>, colors: seq<Color>): (r: Collection)
    requires |tags| == |colors|
    decreases |tags|
  {
    if tags == [] then c
    else AddInner(AddInners(c, key, tags[..|tags| - 1], colors[..|tags| - 1]), key, tags[|tags| - 1], colors[|tags| - 1])
  }

  /** AddDefaultTagset: the "default" tagset, then its six tags with the given colours. */
  function SeedDefault(c: Collection, palette: seq<Color>): Collection
    requires |palette| == |DefaultTags|
  {
    AddInners(AddEntry(c, DefaultTagsetName, None), DefaultTagsetName, DefaultTags, palette)
  }

  // ---------------------------------------------------------------------
  // What the mutators promise

  /** AddInnerIndexEntry changes only the named tagset, only by adding the tag,
      and keeps every colour already there. */
  lemma AddInnerSpec(c: Collection, key: string, inkey: string, color: Color)
    ensures AddInner(c, key, inkey, color).Keys == c.Keys
    ensures forall k :: k in c && k != key ==> AddInner(c, key, inkey, color)[k] == c[k]
    ensures key in c ==> AddInner(c, key, inkey, color)[key].Keys == c[key].Keys + {inkey}
    ensures key in c ==> forall t :: t in c[key] ==> AddInner(c, key, inkey, color)[key][t] == c[key][t]
    ensures key in c && inkey !in c[key] ==> AddInner(c, key, inkey, color)[key][inkey] == color
  {
  }

  /** Adding a tagset twice is adding it once; the second value is ignored. */
  lemma AddEntryIdempotent(c: Collection, key: string, v: Option<Tagset>, w: Option<Tagset>)
    ensures AddEntry(AddEntry(c, key, v), key, w) == AddEntry(c, key, v)
  {
  }

  /** Adding a tag twice is adding it once; the second colour is ignored. */
  lemma AddInnerIdempotent(c: Collection, key: string, inkey: string, color: Color, other: Color)
    ensures AddInner(AddInner(c, key, inkey, color), key, inkey, other) == AddInner(c, key, inkey, color)
  {
  }

  /** A tag count goes up by one exactly when the tag is new to an existing tagset. */
  lemma AddInnerCount(c: Collection, key: string, inkey: string, color: Color)
    requires key in c
    ensures |AddInner(c, key, inkey, color)[key]| == if inkey in c[key] then |c[key]| else |c[key]| + 1
  {
  }

  /** Deleting a tagset that was just added restores the collection. */
  lemma DeleteEntryUndoesAddEntry(c: Collection, key: string, v: Option<Tagset>)
    requires key !in c
    ensures DeleteEntry(AddEntry(c, key, v), key) == c
  {
  }

  /** Deleting a tagset twice is deleting it once. */
  lemma DeleteEntryIdempotent(c: Collection, key: string)
    ensures DeleteEntry(DeleteEntry(c, key), key) == DeleteEntry(c, key)
  {
  }

  /** Deleting (as intended) a tag that was just added restores the collection. */
  lemma DeleteInnerUndoesAddInner(c: Collection, key: string, inkey: string, color: Color)
    requires key in c && inkey !in c[key]
    ensures DeleteInner(AddInner(c, key, inkey, color), key, inkey) == c
  {
    assert c[key][inkey := color] - {inkey} == c[key];
  }

  /** InitializeIndex adds every listed name as an empty tagset and leaves the
      tagsets already present as they were. */
  lemma {:induction false} AddEntriesSpec(c: Collection, keys: seq<string>)
    ensures AddEntries(c, keys).Keys == c.Keys + set k | k in keys
    ensures forall k :: k in c ==> AddEntries(c, keys)[k] == c[k]
    ensures forall k :: k in AddEntries(c, keys) && k !in c ==> AddEntries(c, keys)[k] == map[]
    decreases |keys|
  {
    if keys != [] {
      var init := keys[..|keys| - 1];
      AddEntriesSpec(c, init);
      assert keys == init + [keys[|keys| - 1]];
      assert (set k | k in keys) == (set k | k in init) + {keys[|keys| - 1]};
    }
  }

  /** The loop of AddDefaultTagset on an existing tagset: every other tagset
      stays, the tagset keeps its tags and colours, and its tags become the old
      ones together with the listed ones. */
  lemma {:induction false} AddInnersFrame(c: Collection, key: string, tags: seq<string>, colors: seq<Color>)
    requires |tags| == |colors|
    requires key in c
    ensures AddInners(c, key, tags, colors).Keys == c.Keys
    ensures forall k :: k in c && k != key ==> AddInners(c, key, tags, colors)[k] == c[k]
    ensures forall t :: t in AddInners(c, key, tags, colors)[key] <==> t in c[key] || t in tags
    ensures forall t :: t in c[key] ==> AddInners(c, key, tags, colors)[key][t] == c[key][t]
    decreases |tags|
  {
    if tags != [] {
      var n := |tags| - 1;
      AddInnersFrame(c, key, tags[..n], colors[..n]);
      assert tags == tags[..n] + [tags[n]];
    }
  }

  /** When the listed tags are new to the tagset and distinct, each one ends up
      with its own colour. */
  lemma {:induction false} AddInnersColors(c: Collection, key: string, tags: seq<string>, colors: seq<Color>)
    requires |tags| == |colors|
    requires key in c
    requires forall i :: 0 <= i < |tags| ==> tags[i] !in c[key]
    requires forall i, j :: 0 <= i < j < |tags| ==> tags[i] != tags[j]
    ensures key in AddInners(c, key, tags, colors)
    ensures forall i :: 0 <= i < |tags| ==> tags[i] in AddInners(c, key, tags, colors)[key]
    ensures forall i :: 0 <= i < |tags| ==> AddInners(c, key, tags, colors)[key][tags[i]] == colors[i]
    decreases |tags|
  {
    AddInnersFrame(c, key, tags, colors);
    if tags != [] {
      var n := |tags| - 1;
      var init, inits := tags[..n], colors[..n];
      AddInnersColors(c, key, init, inits);
      AddInnersFrame(c, key, init, inits);
      var prev := AddInners(c, key, init, inits);
      assert tags[n] !in prev[key] by {
        assert forall i :: 0 <= i < n ==> init[i] != tags[n];
      }
      var r := AddInners(c, key, tags, colors);
      assert r == AddInner(prev, key, tags[n], colors[n]);
      AddInnerSpec(prev, key, tags[n], colors[n]);
      forall i | 0 <= i < |tags|
        ensures r[key][tags[i]] == colors[i]
      {
        if i < n {
          assert init[i] == tags[i] && inits[i] == colors[i];
          assert tags[i] in prev[key];
        }
      }
    }
  }

  /** A list of pairwise distinct names has as many distinct names as entries. */
  lemma {:induction false} DistinctNamesCount(names: seq<string>)
    requires forall i, j :: 0 <= i < j < |names| ==> names[i] != names[j]
    ensures |set t | t in names| == |names|
    decreases |names|
  {
    if names != [] {
      var n := |names| - 1;
      DistinctNamesCount(names[..n]);
      assert names == names[..n] + [names[n]];
      assert (set t | t in names) == (set t | t in names[..n]) + {names[n]};
      assert names[n] !in (set t | t in names[..n]);
    }
  }

  /** The six default tag names are distinct (their lengths already differ). */
  lemma DefaultTagsDistinct()
    ensures forall i, j :: 0 <= i < j < |DefaultTags| ==> DefaultTags[i] != DefaultTags[j]
    ensures |set t | t in DefaultTags| == 6
  {
    assert forall i :: 0 <= i < |DefaultTags| ==> |DefaultTags[i]| == [9, 8, 6, 15, 11, 7][i];
    DistinctNamesCount(DefaultTags);
  }

  /** Seeding an empty index gives exactly one tagset, "default", holding exactly
      the six default tags with their colours. */
  lemma SeedDefaultOnEmpty(palette: seq<Color>)
    requires |palette| == |DefaultTags|
    ensures SeedDefault(map[], palette).Keys == {DefaultTagsetName}
    ensures SeedDefault(map[], palette)[DefaultTagsetName].Keys == set t | t in DefaultTags
    ensures forall i :: 0 <= i < |DefaultTags| ==> SeedDefault(map[], palette)[DefaultTagsetName][DefaultTags[i]] == palette[i]
    ensures |SeedDefault(map[], palette)[DefaultTagsetName]| == 6
  {
    DefaultTagsDistinct();
    var start := AddEntry(map[], DefaultTagsetName, None);
    AddInnersFrame(start, DefaultTagsetName, DefaultTags, palette);
    AddInnersColors(start, DefaultTagsetName, DefaultTags, palette);
    var tags := SeedDefault(map[], palette)[DefaultTagsetName];
    assert |tags| == |tags.Keys|;
  }

  // ---------------------------------------------------------------------
  // The index object

  class TagsetIndex {
    /** IndexCollection. */
    var indexCollection: Collection

    /** The property initialiser: a fresh index starts empty. */
    constructor ()
      ensures indexCollection == map[]
    {
      indexCollection := map[];
    }

    /** The private constructor, with the index file abstracted: `stored` is None
        when the file does not exist, and otherwise what was read from it.
        `palette` stands for the six generated colours. */
    constructor Open(stored: Option<Collection>, palette: seq<Color>)
      requires |palette| == |DefaultTags|
      ensures stored.None? ==> indexCollection == SeedDefault(map[], palette)
      ensures stored.Some? ==> indexCollection == stored.value
    {
      indexCollection := map[];
      new;
      if stored.None? {
        AddDefaultTagset(palette);
      } else {
        ReadIndexFromDisk(stored);
      }
    }

    /** ItemCount: the number of tagsets. */
    function ItemCount(): (n: nat)
      reads this
      ensures n == 0 <==> indexCollection == map[]
    {
      |indexCollection|
    }

    /** GetValueCount: the size of a tagset, or the sentinel -1 when it is not there. */
    function GetValueCount(key: string): (n: int)
      reads this
      ensures n >= -1
      ensures n == -1 <==> key !in indexCollection
      ensures key in indexCollection ==> n == |indexCollection[key]|
    {
      if key in indexCollection then |indexCollection[key]| else -1
    }

    /** GetInnerValueCount ignores the tag name: it is GetValueCount again. */
    function GetInnerValueCount(key: string, inkey: string): (n: int)
      reads this
      ensures n == GetValueCount(key)
    {
      if key in indexCollection then |indexCollection[key]| else -1
    }

    /** ReadIndexFromDisk with the file abstracted: when there is a stored
        collection it replaces the whole index (no merge). */
    method ReadIndexFromDisk(stored: Option<Collection>)
      modifies this
      ensures stored.Some? ==> indexCollection == stored.value
      ensures stored.None? ==> indexCollection == old(indexCollection)
    {
      if stored.Some? {
        indexCollection := stored.value;
      }
    }

    method AddDefaultTagset(palette: seq<Color>)
      requires |palette| == |DefaultTags|
      modifies this
      ensures indexCollection == SeedDefault(old(indexCollection), palette)
    {
      AddIndexEntry(DefaultTagsetName, None);
      ghost var start := indexCollection;
      var i := 0;
      while i < |DefaultTags|
        invariant 0 <= i <= |DefaultTags|
        invariant indexCollection == AddInners(start, DefaultTagsetName, DefaultTags[..i], palette[..i])
      {
        AddInnerIndexEntry(DefaultTagsetName, DefaultTags[i], palette[i]);
        assert DefaultTags[..i + 1][..i] == DefaultTags[..i];
        assert palette[..i + 1][..i] == palette[..i];
        i := i + 1;
      }
      assert DefaultTags[..i] == DefaultTags && palette[..i] == palette;
    }

    method AddIndexEntry(key: string, value: Option<Tagset>)
      modifies this
      ensures indexCollection == AddEntry(old(indexCollection), key, value)
    {
      if key !in indexCollection && value.None? {
        indexCollection := indexCollection[key := map[]];
      }
      if key !in indexCollection && value.Some? {
        indexCollection := indexCollection[key := value.value];
      }
    }

    method AddInnerIndexEntry(key: string, inkey: string, invalue: Color)
      modifies this
      ensures indexCollection == AddInner(old(indexCollection), key, inkey, invalue)
    {
      if key in indexCollection {
        if inkey !in indexCollection[key] {
          indexCollection := indexCollection[key := indexCollection[key][inkey := invalue]];
        }
      }
    }

    /** The two-argument AddInnerIndexEntry: the colour is a generated one,
        passed in here as `generated`. */
    method AddInnerIndexEntryGenerated(key: string, inkey: string, generated: Color)
      modifies this
      ensures indexCollection == AddInner(old(indexCollection), key, inkey, generated)
    {
      AddInnerIndexEntry(key, inkey, generated);
    }

    method DeleteIndexEntry(key: string)
      modifies this
      ensures indexCollection == DeleteEntry(old(indexCollection), key)
    {
      if key in indexCollection {
        indexCollection := indexCollection - {key};
      }
    }

    /** DeleteInnerIndexEntry as written: the removal is reached only when the
        tag is absent, so the index never changes. */
    method DeleteInnerIndexEntry(key: string, inkey: string)
      modifies this
      ensures indexCollection == old(indexCollection)
    {
      if key in indexCollection {
        if inkey !in indexCollection[key] {
          assert indexCollection[key] - {inkey} == indexCollection[key];
          indexCollection := indexCollection[key := indexCollection[key] - {inkey}];
        }
      }
    }

    /** DeleteInnerIndexEntry with the guard the other way round, as intended. */
    method DeleteInnerIndexEntryCorrected(key: string, inkey: string)
      modifies this
      ensures indexCollection == DeleteInner(old(indexCollection), key, inkey)
    {
      if key in indexCollection {
        if inkey in indexCollection[key] {
          indexCollection := indexCollection[key := indexCollection[key] - {inkey}];
        }
      }
    }

    method InitializeIndex(list: seq<string>)
      modifies this
      ensures indexCollection == AddEntries(old(indexCollection), list)
    {
      ghost var start := indexCollection;
      var i := 0;
      while i < |list|
        invariant 0 <= i <= |list|
        invariant indexCollection == AddEntries(start, list[..i])
      {
        AddIndexEntry(list[i], None);
        assert list[..i + 1][..i] == list[..i];
        i := i + 1;
      }
      assert list[..i] == list;
    }

    method UnloadData()
      modifies this
      ensures indexCollection == map[]
      ensures ItemCount() == 0
      ensures forall key :: GetValueCount(key) == -1
    {
      indexCollection := map[];
    }
  }

  /** A client run of DeleteInnerIndexEntry: after adding tag "Meeting" to tagset
      "default" and then deleting it, the tag is still there. */
  method DeleteInnerKeepsTag(color: Color) returns (stillThere: bool)
    ensures stillThere
  {
    var index := new TagsetIndex();
    index.AddIndexEntry(DefaultTagsetName, None);
    index.AddInnerIndexEntry(DefaultTagsetName, "Meeting", color);
    index.DeleteInnerIndexEntry(DefaultTagsetName, "Meeting");
    stillThere := "Meeting" in index.indexCollection[DefaultTagsetName];
  }

  /** The corrected deletion does remove the tag in the same run. */
  method CorrectedDeleteRemovesTag(color: Color) returns (gone: bool)
    ensures gone
  {
    var index := new TagsetIndex();
    index.AddIndexEntry(DefaultTagsetName, None);
    index.AddInnerIndexEntry(DefaultTagsetName, "Meeting", color);
    index.DeleteInnerIndexEntryCorrected(DefaultTagsetName, "Meeting");
    gone := "Meeting" !in index.indexCollection[DefaultTagsetName];
  }
}
