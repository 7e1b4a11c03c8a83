/** The catalog of supported board shapes and the lookup by dimensions. */
module SudokuSizes {
  import opened Wrappers

  /** The three shapes of the catalog, in declaration order. */
  datatype SudokuSize = Small | Medium | Large {

    function Width(): int {
      match this
      case Small => 4
      case Medium => 6
      case Large => 9
    }

    function Height(): int {
      match this
      case Small => 4
      case Medium => 6
      case Large => 9
    }

    function BoxWidth(): int {
      match this
      case Small => 2
      case Medium => 2
      case Large => 3
    }

    function BoxHeight(): int {
      match this
      case Small => 2
      case Medium => 3
      case Large => 3
    }

    /** True when this shape has exactly the given width and height. */
    predicate HasDimensions(width: int, height: int) {
      Width() == width && Height() == height
    }
  }

  /** The catalog, in declaration order. */
  const Values: seq<SudokuSize> := [Small, Medium, Large]

  /** The first candidate with the given dimensions, if any. */
  function Find(candidates: seq<SudokuSize>, width: int, height: int): (r: Option<SudokuSize>)
    ensures r.None? <==> forall i :: 0 <= i < |candidates| ==> !candidates[i].HasDimensions(width, height)
    ensures r.Some? ==> exists i :: 0 <= i < |candidates| && candidates[i] == r.value
                          && candidates[i].HasDimensions(width, height)
                          && forall j :: 0 <= j < i ==> !candidates[j].HasDimensions(width, height)
  {
    if |candidates| == 0 then None
    else if candidates[0].HasDimensions(width, height) then Some(candidates[0])
    else
      var r := Find(candidates[1..], width, height);
      assert forall i :: 1 <= i < |candidates| ==> candidates[i] == candidates[1..][i - 1];
      r
  }

  /** Shape lookup by raw dimensions; falls back to `Large` and never fails. */
  function FromDimensions(width: int, height: int): (s: SudokuSize)
    ensures (exists c :: c in Values && c.HasDimensions(width, height)) ==> s.HasDimensions(width, height)
    ensures (forall c :: c in Values ==> !c.HasDimensions(width, height)) ==> s == Large
  {
    Find(Values, width, height).GetOr(Large)
  }

  /** Every shape is recovered from its own dimensions: catalog dimensions are distinct. */
  lemma FromDimensionsOfShape(s: SudokuSize)
    ensures FromDimensions(s.Width(), s.Height()) == s
  {
    assert s in Values;
  }

  /** Every catalog entry is square and its boxes tile a row exactly. */
  lemma CatalogShapesAreWellFormed(s: SudokuSize)
    ensures s.Width() == s.Height()
    ensures s.BoxWidth() * s.BoxHeight() == s.Width()
    ensures s.Width() % s.BoxWidth() == 0 && s.Height() % s.BoxHeight() == 0
  {
  }

  /** Unsupported dimensions fall back to the 9x9 shape with 3x3 boxes. */
  lemma FromDimensionsFallsBack()
    ensures FromDimensions(5, 5) == Large
    ensures FromDimensions(0, 0) == Large
    ensures FromDimensions(4, 9) == Large
    ensures Large.Width() == 9 && Large.Height() == 9 && Large.BoxWidth() == 3 && Large.BoxHeight() == 3
  {
  }
}
