/** The watershed directory filter at the start of the batch: the
    entries of `<io root>/input` whose names are `<watershed>-<subbasin>`. */
module WatershedCatalog {
  import opened Text

  /** One entry of a directory listing: its name and whether
      `os.path.isdir` holds for it. */
  datatype Entry = Entry(name: string, isDirectory: bool)

  /** The acceptance test: a directory whose name holds exactly one hyphen.
      Either side of the hyphen may be empty. */
  predicate IsWatershedEntry(e: Entry)
  {
    e.isDirectory && Count(e.name, '-') == 1
  }

  /** The names of the accepted entries, in listing order. */
  function WatershedNames(listing: seq<Entry>): (names: seq<string>)
    ensures forall n :: n in names ==> Count(n, '-') == 1
  {
    if listing == [] then []
    else
      var last := listing[|listing| - 1];
      WatershedNames(listing[..|listing| - 1]) + (if IsWatershedEntry(last) then [last.name] else [])
  }

  /** The loop over `os.listdir(<io root>/input)`: an entry is appended when
      it is a directory and `name.split("-")` has two pieces; any other
      entry is reported and skipped. */
  method ListWatershedDirectories(listing: seq<Entry>) returns (directories: seq<string>)
    ensures directories == WatershedNames(listing)
  {
    directories := [];
    for i := 0 to |listing|
      invariant directories == WatershedNames(listing[..i])
    {
      var e := listing[i];
      assert listing[..i + 1][..i] == listing[..i];
      SplitCount(e.name, '-');
      if e.isDirectory && |Split(e.name, '-')| == 2 {
        directories := directories + [e.name];
      }
    }
    assert listing[..|listing|] == listing;
  }

  /** A name is kept exactly when some entry with that name passes the test. */
  lemma {:induction false} WatershedNamesMembership(listing: seq<Entry>, name: string)
    ensures name in WatershedNames(listing) <==>
            exists e :: e in listing && e.name == name && IsWatershedEntry(e)
  {
    if listing != [] {
      var init := listing[..|listing| - 1];
      WatershedNamesMembership(init, name);
      assert listing == init + [listing[|listing| - 1]];
      assert forall e :: e in listing <==> e in init || e == listing[|listing| - 1];
    }
  }

  /** Filtering a listing piecewise gives the same result: accepted names
      keep their relative order and rejections do not affect the rest. */
  lemma {:induction false} WatershedNamesAppend(a: seq<Entry>, b: seq<Entry>)
    ensures WatershedNames(a + b) == WatershedNames(a) + WatershedNames(b)
    decreases |b|
  {
    if b == [] {
      assert a + b == a;
    } else {
      var init := b[..|b| - 1];
      assert (a + b)[..|a + b| - 1] == a + init;
      WatershedNamesAppend(a, init);
    }
  }

  /** The watershed and subbasin named by an accepted directory:
      `name.split("-")[0]` and `name.split("-")[1]`. */
  function WatershedAndSubbasin(name: string): (r: (string, string))
    requires |Split(name, '-')| == 2
    ensures name == r.0 + "-" + r.1
    ensures '-' !in r.0 && '-' !in r.1
  {
    var parts := Split(name, '-');
    SplitJoin(name, '-');
    SplitPiecesFree(name, '-');
    assert Join(parts, '-') == parts[0] + "-" + parts[1];
    (parts[0], parts[1])
  }

  /** The directories the filter accepts are exactly those whose names
      split into two pieces, and the pieces are the text on either side of
      the hyphen. */
  lemma AcceptedNameSplits(name: string, watershed: string, subbasin: string)
    requires name == watershed + "-" + subbasin && '-' !in watershed && '-' !in subbasin
    ensures IsWatershedEntry(Entry(name, true))
    ensures Split(name, '-') == [watershed, subbasin]
    ensures WatershedAndSubbasin(name) == (watershed, subbasin)
  {
    SplitAtSoleSeparator(watershed, subbasin, '-');
    CountAppend(watershed + "-", subbasin, '-');
    CountAppend(watershed, "-", '-');
    CountPositive(watershed, '-');
    CountPositive(subbasin, '-');
  }
}
