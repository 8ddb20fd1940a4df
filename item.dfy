/**
 * An Item bundles format payloads with an optional id and previous id, and
 * `export` serialises it into the record that is published. The export
 * rejects an item holding two formats of the same runtime class.
 */
module Items {
  import opened Wrappers
  import opened Values

  /**
   * The runtime class of a Format implementation. Two formats have the same
   * class exactly when their `FormatClass` values are equal; `simpleName`
   * is what `getSimpleName` reports in the error message.
   */
  datatype FormatClass = FormatClass(id: nat, simpleName: string)

  /** A format instance: its class, the name it reports and the payload it exports. */
  datatype Format = Format(cls: FormatClass, name: string, payload: Value)

  /**
   * An item as its constructor stores it: the formats in list order, and the
   * id and previous id (`None` is `null`). The fields are never changed
   * after construction.
   */
  datatype Item = Item(formats: seq<Format>, id: Option<string>, prevId: Option<string>)

  /** The IllegalArgumentException thrown for a repeated format class. */
  datatype ExportError = DuplicateFormat(cls: FormatClass)
  {
    function Message(): string {
      "more than one instance of " + cls.simpleName + " specified"
    }
  }

  const IdKey: string := "id"
  const PrevIdKey: string := "prev-id"

  /** Non-null and non-empty: the condition under which an id is emitted. */
  predicate Present(s: Option<string>) {
    s.Some? && s.value != ""
  }

  /** The format at position `j` has the class of some earlier format. */
  predicate RepeatsAt(fs: seq<Format>, j: int)
    requires 0 <= j < |fs|
  {
    exists i :: 0 <= i < j && fs[i].cls == fs[j].cls
  }

  predicate HasDuplicateClass(fs: seq<Format>) {
    exists i, j :: 0 <= i < j < |fs| && fs[i].cls == fs[j].cls
  }

  /** The classes of the formats, in list order (the `formatTypes` list). */
  function ClassesOf(fs: seq<Format>): seq<FormatClass> {
    seq(|fs|, k requires 0 <= k < |fs| => fs[k].cls)
  }

  /** The set of names the formats report. */
  function Names(fs: seq<Format>): set<string> {
    set f | f in fs :: f.name
  }

  /**
   * The position of the first format whose class was already seen, which is
   * where the scan of `export` throws; `None` when all classes differ.
   */
  function FirstRepeat(fs: seq<Format>): (r: Option<nat>)
    ensures r.None? <==> !HasDuplicateClass(fs)
    ensures r.Some? ==> r.value < |fs| && RepeatsAt(fs, r.value) && !HasDuplicateClass(fs[..r.value])
  {
    if fs == [] then None
    else
      var init := fs[..|fs| - 1];
      var last := fs[|fs| - 1];
      assert forall k :: 0 <= k < |init| ==> init[k] == fs[k];
      match FirstRepeat(init)
      case Some(j) =>
        assert fs[..j] == init[..j];
        Some(j)
      case None =>
        if last.cls in ClassesOf(init) then
          assert RepeatsAt(fs, |fs| - 1) by {
            var i :| 0 <= i < |init| && ClassesOf(init)[i] == last.cls;
          }
          Some(|fs| - 1)
        else
          assert !HasDuplicateClass(fs) by {
            forall i, j | 0 <= i < j < |fs|
              ensures fs[i].cls != fs[j].cls
            {
              if j == |fs| - 1 {
                assert ClassesOf(init)[i] == fs[i].cls;
              } else {
                assert init[i] == fs[i] && init[j] == fs[j];
              }
            }
          }
          None
  }

  /** Without a duplicate among the first `n` formats, none of them repeats an earlier class. */
  lemma NoRepeatBefore(fs: seq<Format>, n: nat)
    requires n <= |fs| && !HasDuplicateClass(fs[..n])
    ensures forall m :: 0 <= m < n ==> !RepeatsAt(fs, m)
  {
    forall m, i | 0 <= i < m < n
      ensures fs[i].cls != fs[m].cls
    {
      assert fs[..n][i] == fs[i] && fs[..n][m] == fs[m];
    }
  }

  /** A repeat at `j` with no duplicate before it is the first repeat. */
  lemma FirstRepeatIs(fs: seq<Format>, j: nat)
    requires j < |fs| && RepeatsAt(fs, j) && !HasDuplicateClass(fs[..j])
    ensures FirstRepeat(fs) == Some(j)
  {
    assert HasDuplicateClass(fs) by {
      var i :| 0 <= i < j && fs[i].cls == fs[j].cls;
    }
    var k := FirstRepeat(fs).value;
    NoRepeatBefore(fs, j);
    NoRepeatBefore(fs, k);
  }

  /** The position of the last format reporting name `k`. */
  function LastNamed(fs: seq<Format>, k: string): (j: nat)
    requires k in Names(fs)
    ensures j < |fs| && fs[j].name == k
    ensures forall j' :: j < j' < |fs| ==> fs[j'].name != k
  {
    var last := fs[|fs| - 1];
    if last.name == k then |fs| - 1
    else
      var init := fs[..|fs| - 1];
      assert k in Names(init) by {
        var f :| f in fs && f.name == k;
        var i :| 0 <= i < |fs| && fs[i] == f;
        assert init[i] == f;
      }
      LastNamed(init, k)
  }

  /** The id entries put into the output before the formats. */
  function IdEntries(item: Item): Record {
    var withId := if Present(item.id) then map[IdKey := Text(item.id.value)] else map[];
    if Present(item.prevId) then withId[PrevIdKey := Text(item.prevId.value)] else withId
  }

  /** The keys `IdEntries` holds. */
  function IdKeys(item: Item): set<string> {
    (if Present(item.id) then {IdKey} else {}) + (if Present(item.prevId) then {PrevIdKey} else {})
  }

  /** The entries the formats put, in list order, so a later format overwrites an earlier one of the same name. */
  function FormatEntries(fs: seq<Format>): Record {
    if fs == [] then map[]
    else FormatEntries(fs[..|fs| - 1])[fs[|fs| - 1].name := fs[|fs| - 1].payload]
  }

  /** Each format name maps to the payload of the last format with that name, and nothing else is there. */
  lemma {:induction false} FormatEntriesSpec(fs: seq<Format>)
    ensures FormatEntries(fs).Keys == Names(fs)
    ensures forall k :: k in Names(fs) ==> FormatEntries(fs)[k] == fs[LastNamed(fs, k)].payload
  {
    if fs != [] {
      var init := fs[..|fs| - 1];
      var last := fs[|fs| - 1];
      FormatEntriesSpec(init);
      assert fs == init + [last];
      assert Names(fs) == Names(init) + {last.name};
      forall k | k in Names(fs)
        ensures FormatEntries(fs)[k] == fs[LastNamed(fs, k)].payload
      {
        if k != last.name {
          assert LastNamed(fs, k) == LastNamed(init, k);
        }
      }
    }
  }

  /**
   * What `export` returns or throws: the error for the first repeated
   * class, or the id entries overwritten by the entries of the formats.
   */
  function Exported(item: Item): Result<Record, ExportError> {
    match FirstRepeat(item.formats)
    case Some(j) => Failure(DuplicateFormat(item.formats[j].cls))
    case None => Success(IdEntries(item) + FormatEntries(item.formats))
  }

  /**
   * `export` throws exactly when two formats share a class, naming the class
   * found at the first repeat. Otherwise the record holds `id` and `prev-id`
   * when those are present, and one entry per format name holding the
   * payload of the last format with that name (a format named `id` or
   * `prev-id` therefore overwrites that entry).
   */
  lemma ExportedSpec(item: Item)
    ensures var r := Exported(item);
      && (r.Failure? <==> HasDuplicateClass(item.formats))
      && (r.Failure? ==> exists j :: 0 <= j < |item.formats| && RepeatsAt(item.formats, j)
                            && !HasDuplicateClass(item.formats[..j])
                            && r.error == DuplicateFormat(item.formats[j].cls))
      && (r.Success? ==> r.value.Keys == IdKeys(item) + Names(item.formats))
      && (r.Success? ==> forall k :: k in Names(item.formats) ==>
                           r.value[k] == item.formats[LastNamed(item.formats, k)].payload)
      && (r.Success? && IdKey !in Names(item.formats) ==>
            (IdKey in r.value <==> Present(item.id))
            && (Present(item.id) ==> r.value[IdKey] == Text(item.id.value)))
      && (r.Success? && PrevIdKey !in Names(item.formats) ==>
            (PrevIdKey in r.value <==> Present(item.prevId))
            && (Present(item.prevId) ==> r.value[PrevIdKey] == Text(item.prevId.value)))
  {
    FormatEntriesSpec(item.formats);
  }

  /** The class of format `i` is among those of the formats before it exactly when it repeats. */
  lemma RepeatFound(fs: seq<Format>, i: nat)
    requires i < |fs| && fs[i].cls in ClassesOf(fs[..i])
    ensures RepeatsAt(fs, i)
  {
    var k :| 0 <= k < i && ClassesOf(fs[..i])[k] == fs[i].cls;
    assert fs[..i][k] == fs[k];
  }

  /** A format whose class is new keeps the prefix free of duplicates. */
  lemma NoRepeatExtends(fs: seq<Format>, i: nat)
    requires i < |fs| && !HasDuplicateClass(fs[..i]) && fs[i].cls !in ClassesOf(fs[..i])
    ensures !HasDuplicateClass(fs[..i + 1])
  {
    forall a, b | 0 <= a < b < i + 1
      ensures fs[a].cls != fs[b].cls
    {
      if b == i {
        assert ClassesOf(fs[..i])[a] == fs[a].cls;
      } else {
        assert fs[..i][a] == fs[a] && fs[..i][b] == fs[b];
      }
    }
    assert forall a :: 0 <= a < i + 1 ==> fs[..i + 1][a] == fs[a];
  }

  /** Appending a class keeps `formatTypes` the classes of the scanned prefix. */
  lemma ClassesNext(fs: seq<Format>, i: nat)
    requires i < |fs|
    ensures ClassesOf(fs[..i + 1]) == ClassesOf(fs[..i]) + [fs[i].cls]
  {
  }

  /** Putting format `i` after the entries of the formats before it gives the entries of one more format. */
  lemma EntriesNext(ids: Record, fs: seq<Format>, i: nat)
    requires i < |fs|
    ensures ids + FormatEntries(fs[..i + 1]) == (ids + FormatEntries(fs[..i]))[fs[i].name := fs[i].payload]
  {
    assert fs[..i + 1][..i] == fs[..i];
  }

  /**
   * `Item.export`: a first pass collects the format classes and throws at
   * the first repeated one; a second pass builds the output map.
   */
  method Export(item: Item) returns (r: Result<Record, ExportError>)
    ensures r == Exported(item)
  {
    var fs := item.formats;
    var formatTypes: seq<FormatClass> := [];
    var i := 0;
    while i < |fs|
      invariant 0 <= i <= |fs|
      invariant formatTypes == ClassesOf(fs[..i])
      invariant !HasDuplicateClass(fs[..i])
    {
      var format := fs[i];
      if format.cls in formatTypes {
        RepeatFound(fs, i);
        FirstRepeatIs(fs, i);
        return Failure(DuplicateFormat(format.cls));
      }
      NoRepeatExtends(fs, i);
      ClassesNext(fs, i);
      formatTypes := formatTypes + [format.cls];
      i := i + 1;
    }
    assert fs[..i] == fs;

    var out: Record := map[];
    if item.id.Some? && item.id.value != "" {
      out := out[IdKey := Text(item.id.value)];
    }
    if item.prevId.Some? && item.prevId.value != "" {
      out := out[PrevIdKey := Text(item.prevId.value)];
    }
    i := 0;
    while i < |fs|
      invariant 0 <= i <= |fs|
      invariant out == IdEntries(item) + FormatEntries(fs[..i])
    {
      EntriesNext(IdEntries(item), fs, i);
      out := out[fs[i].name := fs[i].payload];
      i := i + 1;
    }
    assert fs[..i] == fs;
    return Success(out);
  }
}
