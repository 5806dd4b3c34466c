/**
 * The Abook side: a parsed address-book file. It mirrors what the INI parser
 * holds: the default section (named `format`, whose keys every other section
 * inherits), the other sections in file order, and each section's fields.
 */
module Books {
  import opened Wrappers

  /** The fields of one section, from field name to value. */
  type Section = map<string, string>

  /** The name of the default section, which holds the file's format metadata. */
  const DEFAULT_SECTION := "format"

  datatype Book = Book(defaults: Section, order: seq<string>, sections: map<string, Section>)

  /** What the parser holds after reading a missing or empty file. */
  const EMPTY_BOOK := Book(map[], [], map[])

  /** The errors the store and the converter raise. */
  datatype Error =
    | KeyError(key: string)         // lookup of a section or field that is absent
    | NotAnIndex(section: string)   // a section name that `int()` rejects
    | CannotRemoveDefault           // deletion of the default section

  ghost predicate Distinct(xs: seq<string>) {
    forall i, j :: 0 <= i < j < |xs| ==> xs[i] != xs[j]
  }

  /** What the parser guarantees: each section once, in order, and never the default one. */
  ghost predicate Valid(b: Book) {
    && Distinct(b.order)
    && (forall s :: s in b.sections <==> s in b.order)
    && DEFAULT_SECTION !in b.sections
  }

  /** The state of the book file on disk, as seen when it is read. */
  datatype FileState = Missing | Present(mtime: int, content: Book)

  /** A parsed file: a section header names at least one character, so no section is called "". */
  ghost predicate ValidFile(f: FileState) {
    f.Present? ==> Valid(f.content) && "" !in f.content.sections
  }

  /** Reading the file into a new parser: a missing file reads as an empty book. */
  function Fresh(f: FileState): (b: Book)
    requires ValidFile(f)
    ensures Valid(b) && "" !in b.sections
    ensures f.Missing? ==> b == EMPTY_BOOK
    ensures f.Present? ==> b == f.content
  {
    match f
    case Missing => EMPTY_BOOK
    case Present(_, content) => content
  }

  /** The fields a section shows: its own, falling back to the default section's. */
  function Entry(b: Book, s: string): Section
    requires s in b.sections
  {
    b.defaults + b.sections[s]
  }

  /** A field of an entry is its section's own value, and failing that the default section's. */
  lemma EntryFallsBack(b: Book, s: string, k: string)
    requires s in b.sections
    ensures k in Entry(b, s) <==> k in b.sections[s] || k in b.defaults
    ensures k in b.sections[s] ==> Entry(b, s)[k] == b.sections[s][k]
    ensures k !in b.sections[s] && k in b.defaults ==> Entry(b, s)[k] == b.defaults[k]
  {
  }

  /** `book[s]`: the default section, another existing section, or a KeyError. */
  function View(b: Book, s: string): (r: Option<Section>)
    ensures r.Some? <==> s == DEFAULT_SECTION || s in b.sections
    ensures s == DEFAULT_SECTION ==> r == Some(b.defaults)
    ensures s != DEFAULT_SECTION && s in b.sections ==> r == Some(Entry(b, s))
  {
    if s == DEFAULT_SECTION then Some(b.defaults)
    else if s in b.sections then Some(Entry(b, s))
    else None
  }

  /**
   * `book[s] = {}` followed by writing `fields` into `book[s]`: an existing
   * section is emptied and refilled in place, a new one is added at the end,
   * and the default section is replaced. The parser sends every write to a
   * section with the empty name to the default section, so for `s == ""` the
   * section `""` is added (or kept) empty and the fields land on the defaults.
   */
  function SetSection(b: Book, s: string, fields: Section): (r: Book)
    requires Valid(b)
    ensures Valid(r)
    ensures s == DEFAULT_SECTION ==> r == b.(defaults := fields)
    ensures s == "" ==>
      && r.defaults == b.defaults + fields
      && r.sections == b.sections[s := map[]]
      && r.order == (if s in b.sections then b.order else b.order + [s])
    ensures s != DEFAULT_SECTION && s != "" ==>
      && r.defaults == b.defaults
      && r.sections == b.sections[s := fields]
      && r.order == (if s in b.sections then b.order else b.order + [s])
  {
    if s == DEFAULT_SECTION then b.(defaults := fields)
    else if s == "" then
      Book(b.defaults + fields, if s in b.sections then b.order else b.order + [s], b.sections[s := map[]])
    else if s in b.sections then b.(sections := b.sections[s := fields])
    else Book(b.defaults, b.order + [s], b.sections[s := fields])
  }

  /** `xs` with every occurrence of `x` taken out, the rest in order. */
  function Without(xs: seq<string>, x: string): (r: seq<string>)
    ensures forall y :: y in r <==> y in xs && y != x
    ensures Distinct(xs) ==> Distinct(r)
    ensures x !in xs ==> r == xs
    decreases |xs|
  {
    if xs == [] then []
    else
      var rest := Without(xs[1..], x);
      if xs[0] == x then rest
      else
        assert Distinct(xs) ==> xs[0] !in xs[1..];
        [xs[0]] + rest
  }

  /** In a list without repetitions, taking out `x` removes just its one position. */
  lemma {:induction false} WithoutAt(xs: seq<string>, x: string, k: nat)
    requires Distinct(xs) && k < |xs| && xs[k] == x
    ensures Without(xs, x) == xs[..k] + xs[k + 1..]
    decreases |xs|
  {
    var tail := xs[1..];
    if k == 0 {
      assert x !in tail by {
        forall i | 0 <= i < |tail|
          ensures tail[i] != x
        {
          assert tail[i] == xs[i + 1];
        }
      }
      assert Without(xs, x) == Without(tail, x);
    } else {
      assert xs[0] != x by {
        assert xs[0] == xs[0] && xs[k] == x;
      }
      assert Without(xs, x) == [xs[0]] + Without(tail, x);
      assert Distinct(tail) by {
        forall i, j | 0 <= i < j < |tail|
          ensures tail[i] != tail[j]
        {
          assert tail[i] == xs[i + 1] && tail[j] == xs[j + 1];
        }
      }
      assert tail[k - 1] == x;
      WithoutAt(tail, x, k - 1);
      assert xs[..k] == [xs[0]] + tail[..k - 1];
      assert xs[k + 1..] == tail[k..];
    }
  }

  /** `del book[s]` on a section that exists. */
  function DeleteSection(b: Book, s: string): (r: Book)
    requires Valid(b) && s in b.sections
    ensures Valid(r)
    ensures r.defaults == b.defaults && r.sections == b.sections - {s}
    ensures r.order == Without(b.order, s) && s !in r.order
    ensures forall k :: 0 <= k < |b.order| && b.order[k] == s ==> r.order == b.order[..k] + b.order[k + 1..]
  {
    forall k | 0 <= k < |b.order| && b.order[k] == s
      ensures Without(b.order, s) == b.order[..k] + b.order[k + 1..]
    {
      WithoutAt(b.order, s, k);
    }
    Book(b.defaults, Without(b.order, s), b.sections - {s})
  }
}
