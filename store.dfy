/**
 * The store: one Abook file, its cached parse, and the operations that read
 * entries as vCards or write vCards into the file. The file itself is not
 * modelled; each operation is given the file's state as it would read it, and
 * the writing operations return the book they would write back.
 */
module Store {
  import opened Wrappers
  import opened Text
  import opened VCard
  import opened Books
  import opened Mapper

  /** The cached parse and the modification time of the file it was read from. */
  datatype Cache = Cache(lastModified: int, book: Book)

  /**
   * `_update`: the file is read again when it is missing (and then reads as
   * empty) or when its modification time is later than the recorded one; a
   * change that leaves the modification time where it was is not seen.
   */
  function Refresh(c: Cache, f: FileState): (r: Cache)
    requires ValidFile(f)
    ensures r.lastModified >= c.lastModified
    ensures f.Missing? ==> r == Cache(c.lastModified, EMPTY_BOOK)
    ensures f.Present? ==> r.lastModified == (if f.mtime > c.lastModified then f.mtime else c.lastModified)
    ensures r.book == Fresh(f) || r == c
    ensures f.Present? && f.mtime <= c.lastModified ==> r == c
  {
    match f
    case Missing => Cache(c.lastModified, EMPTY_BOOK)
    case Present(m, content) => if m > c.lastModified then Cache(m, content) else c
  }

  /** A second refresh against the same file changes nothing. */
  lemma RefreshIdempotent(c: Cache, f: FileState)
    requires ValidFile(f)
    ensures Refresh(Refresh(c, f), f) == Refresh(c, f)
  {
  }

  /**
   * `max([-1] + [int(k) for k in names])`: the largest index, -1 when there is
   * none, or the ValueError for the first name `int()` rejects.
   */
  function MaxIndex(names: seq<string>): (r: Result<int, Error>)
    ensures r.Success? ==> r.value >= -1
    decreases |names|
  {
    if names == [] then Success(-1)
    else
      var last := names[|names| - 1];
      match MaxIndex(names[..|names| - 1])
      case Failure(e) => Failure(e)
      case Success(m) =>
        match ParseInt(last)
        case None => Failure(NotAnIndex(last))
        case Some(v) => Success(if v > m then v else m)
  }

  /**
   * The largest index is an upper bound of every index and one of them (or -1
   * for none); the error names the first section that is not an integer.
   */
  lemma {:induction false} MaxIndexMeaning(names: seq<string>)
    ensures var r := MaxIndex(names);
      && (r.Success? <==> forall i :: 0 <= i < |names| ==> ParseInt(names[i]).Some?)
      && (r.Success? ==> forall i :: 0 <= i < |names| ==> ParseInt(names[i]).value <= r.value)
      && (r.Success? ==> r.value == -1 || exists i :: 0 <= i < |names| && ParseInt(names[i]).value == r.value)
      && (r.Failure? ==> exists i ::
            && 0 <= i < |names|
            && ParseInt(names[i]).None?
            && r.error == NotAnIndex(names[i])
            && forall j :: 0 <= j < i ==> ParseInt(names[j]).Some?)
    decreases |names|
  {
    if names != [] {
      var init := names[..|names| - 1];
      MaxIndexMeaning(init);
      assert forall i :: 0 <= i < |init| ==> init[i] == names[i];
    }
  }

  /** The index `append_vobject` gives a new entry: one more than the largest. */
  function NextIndex(b: Book): Result<nat, Error> {
    var m := MaxIndex(b.order);
    if m.Failure? then Failure(m.error) else Success(m.value + 1)
  }

  /**
   * There is a next index exactly when every section name is an integer, and
   * then it is above all of them and just above the largest; an empty book
   * starts at 0.
   */
  lemma NextIndexMeaning(b: Book)
    requires Valid(b)
    ensures var r := NextIndex(b);
      && (r.Success? <==> forall s :: s in b.sections ==> ParseInt(s).Some?)
      && (r.Success? ==> forall s :: s in b.sections ==> ParseInt(s).value < r.value)
      && (r.Success? && r.value > 0 ==> exists s :: s in b.sections && ParseInt(s).value == r.value - 1)
      && (b.sections == map[] ==> r == Success(0))
  {
    MaxIndexMeaning(b.order);
    assert forall s :: s in b.sections ==> exists i :: 0 <= i < |b.order| && b.order[i] == s;
  }

  /** The name of the new section is not taken, neither by an entry nor by the format section. */
  lemma NewSectionIsFresh(b: Book)
    requires Valid(b) && NextIndex(b).Success?
    ensures Show(NextIndex(b).value) !in b.sections
    ensures Show(NextIndex(b).value) != DEFAULT_SECTION
  {
    var n := NextIndex(b).value;
    NextIndexMeaning(b);
    ParseShow(n);
    ShowIsNotDefault(n);
  }

  lemma ShowIsNotDefault(n: nat)
    ensures Show(n) != DEFAULT_SECTION
  {
    assert !IsDigit(DEFAULT_SECTION[0]);
  }

  /** A book holding the sections 0 to n-1, in order, hands out index n next. */
  lemma {:induction false} NextIndexOfNumbered(b: Book, n: nat)
    requires Valid(b) && b.order == seq(n, i requires 0 <= i => Show(i))
    ensures NextIndex(b) == Success(n)
  {
    MaxIndexOfNumbered(n);
  }

  lemma {:induction false} MaxIndexOfNumbered(n: nat)
    ensures MaxIndex(seq(n, i requires 0 <= i => Show(i))) == Success(n - 1)
  {
    if n > 0 {
      var names := seq(n, i requires 0 <= i => Show(i));
      assert names[..n - 1] == seq(n - 1, i requires 0 <= i => Show(i));
      MaxIndexOfNumbered(n - 1);
      ParseShow(n - 1);
    }
  }

  /** After an append the next index is one further: repeated appends count up. */
  lemma AppendAdvancesIndex(b: Book, fields: Section)
    requires Valid(b) && NextIndex(b).Success?
    ensures var n := NextIndex(b).value;
      NextIndex(SetSection(b, Show(n), fields)) == Success(n + 1)
  {
    var n := NextIndex(b).value;
    NewSectionIsFresh(b);
    ParseShow(n);
    MaxIndexSnoc(b.order, Show(n));
  }

  lemma MaxIndexSnoc(names: seq<string>, x: string)
    ensures MaxIndex(names + [x]) ==
      match MaxIndex(names)
      case Failure(e) => Failure(e)
      case Success(m) =>
        match ParseInt(x)
        case None => Failure(NotAnIndex(x))
        case Some(v) => Success(if v > m then v else m)
  {
    var all := names + [x];
    assert all[..|all| - 1] == names;
  }

  /**
   * Indices are reused: removing the highest section of a book numbered 0 to
   * n-1 makes the next append take the removed index again.
   */
  lemma RemovingTopIndexFreesIt(b: Book, n: nat)
    requires Valid(b) && n > 0 && b.order == seq(n, i requires 0 <= i => Show(i))
    ensures Show(n - 1) in b.sections
    ensures NextIndex(DeleteSection(b, Show(n - 1))) == Success(n - 1)
  {
    var top := Show(n - 1);
    assert b.order[n - 1] == top;
    var rest := seq(n - 1, i requires 0 <= i => Show(i));
    assert b.order == rest + [top];
    forall i | 0 <= i < n - 1
      ensures rest[i] != top
    {
      if rest[i] == top {
        ShowInjective(i, n - 1);
      }
    }
    WithoutLast(rest, top);
    NextIndexOfNumbered(DeleteSection(b, top), n - 1);
  }

  lemma {:induction false} WithoutLast(xs: seq<string>, x: string)
    requires x !in xs
    ensures Without(xs + [x], x) == xs
    decreases |xs|
  {
    if xs == [] {
      assert Without([x], x) == Without([], x);
    } else {
      assert (xs + [x])[1..] == xs[1..] + [x];
      WithoutLast(xs[1..], x);
      assert [xs[0]] + xs[1..] == xs;
    }
  }

  /** Adding section i to a book numbered 0 to i-1 extends the numbering. */
  lemma AddNumbered(b: Book, i: nat, fields: Section)
    requires Valid(b) && |b.order| == i && forall j :: 0 <= j < i ==> b.order[j] == Show(j)
    ensures var r := SetSection(b, Show(i), fields);
      && r.defaults == b.defaults
      && r.sections == b.sections[Show(i) := fields]
      && |r.order| == i + 1
      && (forall j :: 0 <= j <= i ==> r.order[j] == Show(j))
    ensures forall j :: 0 <= j < i ==> Show(j) != Show(i)
  {
    forall j | 0 <= j < i
      ensures Show(j) != Show(i)
    {
      if Show(j) == Show(i) {
        ShowInjective(j, i);
      }
    }
    ShowIsNotDefault(i);
  }

  /** What `append_vobject` writes and returns. */
  datatype Commit = Commit(written: Book, uid: string)

  /** One element of `to_vobjects`: the UID asked for, the vCard, and the quoted fingerprint. */
  datatype Item = Item(uid: string, card: Card, etag: string)

  /** The quoted fingerprint of an entry's fields, given the digest function. */
  function ETag(digest: Section -> string, e: Section): string {
    "\"" + digest(e) + "\""
  }

  /** The item `to_vobjects` produces for one UID, or the error it raises. */
  function ItemOf(b: Book, fqdn: string, uid: string, digest: Section -> string): Result<Item, Error>
  {
    var key := ResolveUid(uid);
    match View(b, key)
    case None => Failure(KeyError(key))
    case Some(e) =>
      match CardOf(key, fqdn, e)
      case Failure(err) => Failure(err)
      case Success(c) => Success(Item(uid, c, ETag(digest, e)))
  }

  /** Writing a field onto a section after merging equals merging after writing it. */
  lemma PutOnto(entry: Section, w: Section, k: string, written: bool, v: string)
    ensures entry + Put(w, k, written, v) == Put(entry + w, k, written, v)
  {
  }

  /**
   * The meaning of an item: it succeeds exactly when the UID resolves to a
   * section (or the format section) that has a name, and then carries the UID
   * asked for, the card of that section and the fingerprint of its fields; a
   * UID that resolves to nothing is a KeyError for the section name.
   */
  lemma ItemOfMeaning(b: Book, fqdn: string, uid: string, digest: Section -> string)
    ensures var key := ResolveUid(uid);
      var r := ItemOf(b, fqdn, uid, digest);
      && (r.Success? <==> View(b, key).Some? && "name" in View(b, key).value)
      && (r.Success? ==> var e := View(b, key).value;
            r.value == Item(uid, CardOf(key, fqdn, e).value, ETag(digest, e)))
      && (View(b, key).None? ==> r == Failure(KeyError(key)))
      && (View(b, key).Some? && "name" !in View(b, key).value ==> r == Failure(KeyError("name")))
  {
  }

  /** The item for a UID whose section reads as `e`, in terms of the card of `e`. */
  lemma ItemOfCard(b: Book, fqdn: string, uid: string, digest: Section -> string, e: Section)
    requires View(b, ResolveUid(uid)) == Some(e)
    ensures var c := CardOf(ResolveUid(uid), fqdn, e);
      ItemOf(b, fqdn, uid, digest) ==
        if c.Failure? then Failure(c.error) else Success(Item(uid, c.value, ETag(digest, e)))
  {
  }

  /** The results of `f` over `xs`, in order, up to the first failure. */
  function Collect<X, T>(xs: seq<X>, f: X -> Result<T, Error>): Result<seq<T>, Error>
    decreases |xs|
  {
    if xs == [] then Success([])
    else
      match Collect(xs[..|xs| - 1], f)
      case Failure(e) => Failure(e)
      case Success(ys) =>
        match f(xs[|xs| - 1])
        case Failure(e) => Failure(e)
        case Success(y) => Success(ys + [y])
  }

  /**
   * A collection succeeds exactly when every element does, and then holds one
   * result per element, in order; a failure is the error of the first element
   * that fails.
   */
  lemma {:induction false} CollectMeaning<X, T>(xs: seq<X>, f: X -> Result<T, Error>)
    ensures var r := Collect(xs, f);
      && (r.Success? <==> forall i :: 0 <= i < |xs| ==> f(xs[i]).Success?)
      && (r.Success? ==> |r.value| == |xs| && forall i :: 0 <= i < |xs| ==> f(xs[i]) == Success(r.value[i]))
      && (r.Failure? ==> exists i ::
            && 0 <= i < |xs|
            && f(xs[i]) == Failure(r.error)
            && forall j :: 0 <= j < i ==> f(xs[j]).Success?)
    decreases |xs|
  {
    if xs != [] {
      var init := xs[..|xs| - 1];
      CollectMeaning(init, f);
      assert forall i :: 0 <= i < |init| ==> init[i] == xs[i];
    }
  }

  /** Collecting one element more extends the collection by that element's result. */
  lemma CollectSnoc<X, T>(xs: seq<X>, x: X, f: X -> Result<T, Error>)
    ensures Collect(xs + [x], f) ==
      match Collect(xs, f)
      case Failure(e) => Failure(e)
      case Success(ys) =>
        match f(x)
        case Failure(e) => Failure(e)
        case Success(y) => Success(ys + [y])
  {
    var all := xs + [x];
    assert all[..|all| - 1] == xs;
  }

  function ItemFn(b: Book, fqdn: string, digest: Section -> string): string -> Result<Item, Error> {
    uid => ItemOf(b, fqdn, uid, digest)
  }

  /** `to_vobjects` on the UIDs `uids`: the items in order, or the first error. */
  function ItemsOf(b: Book, fqdn: string, uids: seq<string>, digest: Section -> string): Result<seq<Item>, Error> {
    Collect(uids, ItemFn(b, fqdn, digest))
  }

  /** The items succeed together, each the item of its UID, or fail with the first failing UID's error. */
  lemma ItemsOfMeaning(b: Book, fqdn: string, uids: seq<string>, digest: Section -> string)
    ensures var r := ItemsOf(b, fqdn, uids, digest);
      && (r.Success? <==> forall i :: 0 <= i < |uids| ==> ItemOf(b, fqdn, uids[i], digest).Success?)
      && (r.Success? ==> |r.value| == |uids| && forall i :: 0 <= i < |uids| ==>
            ItemOf(b, fqdn, uids[i], digest) == Success(r.value[i]))
      && (r.Failure? ==> exists i ::
            && 0 <= i < |uids|
            && ItemOf(b, fqdn, uids[i], digest) == Failure(r.error)
            && forall j :: 0 <= j < i ==> ItemOf(b, fqdn, uids[j], digest).Success?)
  {
    CollectMeaning(uids, ItemFn(b, fqdn, digest));
  }

  /**
   * `_to_vcard(self._book[s])` for the section `s`, with the KeyError of a
   * section the parse does not have.
   */
  function SectionCard(b: Book, fqdn: string, s: string): Result<Card, Error> {
    match View(b, s)
    case None => Failure(KeyError(s))
    case Some(e) => CardOf(s, fqdn, e)
  }

  function CardFn(b: Book, fqdn: string): string -> Result<Card, Error> {
    s => SectionCard(b, fqdn, s)
  }

  /** `to_vcards` on the sections `names`: the cards in order, or the first error. */
  function CardsOf(b: Book, fqdn: string, names: seq<string>): Result<seq<Card>, Error> {
    Collect(names, CardFn(b, fqdn))
  }

  /** The card of an entry of the book is the card of its fields under the format defaults. */
  lemma SectionCardOfEntry(b: Book, fqdn: string, s: string)
    requires Valid(b) && s in b.sections
    ensures SectionCard(b, fqdn, s) == CardOf(s, fqdn, Entry(b, s))
    ensures SectionCard(b, fqdn, s).Success? <==> "name" in Entry(b, s)
  {
  }

  /**
   * The cards of a book's entries succeed exactly when every entry has a name,
   * and then there is one card per entry in file order, each that entry's card;
   * the only error is the KeyError for `name`.
   */
  lemma CardsOfMeaning(b: Book, fqdn: string)
    requires Valid(b)
    ensures var r := CardsOf(b, fqdn, b.order);
      && (r.Success? <==> forall i :: 0 <= i < |b.order| ==> "name" in Entry(b, b.order[i]))
      && (r.Success? ==> |r.value| == |b.order| && forall i :: 0 <= i < |b.order| ==>
            SectionCard(b, fqdn, b.order[i]) == Success(r.value[i]))
      && (r.Failure? ==> r.error == KeyError("name"))
  {
    CollectMeaning(b.order, CardFn(b, fqdn));
    forall i | 0 <= i < |b.order|
      ensures b.order[i] in b.sections
      ensures SectionCard(b, fqdn, b.order[i]) == CardOf(b.order[i], fqdn, Entry(b, b.order[i]))
      ensures SectionCard(b, fqdn, b.order[i]).Success? <==> "name" in Entry(b, b.order[i])
    {
      assert b.order[i] in b.order;
      SectionCardOfEntry(b, fqdn, b.order[i]);
    }
  }

  /** Every element succeeding with `ys` makes the collection `ys`. */
  lemma CollectAllSucceed<X, T>(xs: seq<X>, f: X -> Result<T, Error>, ys: seq<T>)
    requires |ys| == |xs| && forall i :: 0 <= i < |xs| ==> f(xs[i]) == Success(ys[i])
    ensures Collect(xs, f) == Success(ys)
  {
    CollectMeaning(xs, f);
    var r := Collect(xs, f);
    assert r.Success?;
    assert forall i :: 0 <= i < |xs| ==> r.value[i] == ys[i];
    assert r.value == ys;
  }

  /** The collection fails with the error of the first element that fails. */
  lemma CollectFirstFailure<X, T>(xs: seq<X>, f: X -> Result<T, Error>, k: nat)
    requires k < |xs| && f(xs[k]).Failure?
    requires forall j :: 0 <= j < k ==> f(xs[j]).Success?
    ensures Collect(xs, f) == Failure(f(xs[k]).error)
  {
    CollectMeaning(xs, f);
  }

  /** Every section of the file order is one of the book's sections. */
  lemma InOrder(b: Book, i: int)
    requires Valid(b) && 0 <= i < |b.order|
    ensures b.order[i] in b.sections
  {
    assert b.order[i] in b.order;
  }

  /** Every entry's UID, in file order. */
  function AllUids(b: Book, fqdn: string): (r: seq<string>)
    ensures |r| == |b.order|
    ensures forall i :: 0 <= i < |r| ==> r[i] == Uid(b.order[i], fqdn)
  {
    seq(|b.order|, i requires 0 <= i < |b.order| => Uid(b.order[i], fqdn))
  }

  /** Each UID `get_uids` lists resolves back to its section when the section name has no `@`. */
  lemma AllUidsResolve(b: Book, fqdn: string, i: int)
    requires 0 <= i < |b.order| && '@' !in b.order[i]
    ensures ResolveUid(AllUids(b, fqdn)[i]) == b.order[i]
  {
    UidResolves(b.order[i], fqdn);
  }

  /**
   * A UID that starts with `@` resolves to the empty section name. Writing a
   * card there lays its fields over the format section, so every entry without
   * a name of its own now shows the card's name.
   */
  lemma EmptyNameWritesDefaults(rest: string, b: Book, card: Card, s: string)
    requires Valid(b) && s in b.sections && s != "" && "name" !in b.sections[s]
    ensures ResolveUid("@" + rest) == ""
    ensures var r := SetSection(b, ResolveUid("@" + rest), AbookFields(card));
      s in r.sections && "name" in Entry(r, s) && Entry(r, s)["name"] == card.fn
  {
    var uid := "@" + rest;
    assert uid[0] == '@';
    ReverseKeys(card);
  }

  /** The UIDs `to_vobjects` works on: those asked for, or every entry's when none is. */
  function Asked(uids: seq<string>, b: Book, fqdn: string): seq<string> {
    if uids == [] then AllUids(b, fqdn) else uids
  }

  /** The format section `abook_file` writes. */
  const FORMAT_FIELDS: Section := map["program" := "abook", "version" := "0.6.1"]

  class Abook {
    /** The host's fully qualified domain name, the second half of every UID. */
    const fqdn: string
    var lastModified: int
    var book: Book

    ghost predicate Valid()
      reads this
    {
      Books.Valid(book)
    }

    /** A new store starts from modification time 0 and an empty parse, then refreshes. */
    constructor (fqdn: string, file: FileState)
      requires ValidFile(file)
      ensures Valid() && this.fqdn == fqdn
      ensures Cache(lastModified, book) == Refresh(Cache(0, EMPTY_BOOK), file)
    {
      this.fqdn := fqdn;
      lastModified := 0;
      book := EMPTY_BOOK;
      new;
      Update(file);
    }

    /** `_update`. */
    method Update(file: FileState)
      requires Valid() && ValidFile(file)
      modifies this
      ensures Valid()
      ensures Cache(lastModified, book) == Refresh(Cache(old(lastModified), old(book)), file)
    {
      if file.Missing? || file.mtime > lastModified {
        if file.Present? {
          lastModified := file.mtime;
        }
        book := Fresh(file);
      }
    }

    /** `last_modified`: the recorded modification time after a refresh. */
    method LastModified(file: FileState) returns (m: int)
      requires Valid() && ValidFile(file)
      modifies this
      ensures Valid()
      ensures Cache(lastModified, book) == Refresh(Cache(old(lastModified), old(book)), file)
      ensures m == lastModified && m >= old(lastModified)
    {
      Update(file);
      m := lastModified;
    }

    /** `get_uids`: one UID per entry, in file order. */
    method GetUids(file: FileState) returns (uids: seq<string>)
      requires Valid() && ValidFile(file)
      modifies this
      ensures Valid()
      ensures Cache(lastModified, book) == Refresh(Cache(old(lastModified), old(book)), file)
      ensures |uids| == |book.order|
      ensures forall i :: 0 <= i < |uids| ==> uids[i] == Uid(book.order[i], fqdn)
    {
      Update(file);
      uids := AllUids(book, fqdn);
    }

    /** `_to_vcard`: builds the card property by property. */
    method ToVcard(section: string, entry: Section) returns (r: Result<Card, Error>)
      ensures r == CardOf(section, fqdn, entry)
    {
      if "name" !in entry {
        return Failure(KeyError("name"));
      }
      var emails := EmailsFor(entry);
      var adr := if HasAddress(entry) then Some(GenAddr(entry)) else None;
      var tels := TelsFor(entry);
      var nickname := if "nick" in entry then Some(entry["nick"]) else None;
      var url := if "url" in entry then Some(entry["url"]) else None;
      var note := if "notes" in entry then Some(entry["notes"]) else None;
      r := Success(Card(
        Uid(section, fqdn), entry["name"], GenName(entry["name"]),
        emails, adr, tels, nickname, url, note));
    }

    /** The EMAIL properties of `_to_vcard`: one per comma-separated segment. */
    static method EmailsFor(entry: Section) returns (emails: seq<string>)
      ensures emails == if "email" in entry then Split(entry["email"], ',') else []
    {
      emails := [];
      if "email" in entry {
        var parts := Split(entry["email"], ',');
        for i := 0 to |parts|
          invariant emails == parts[..i]
        {
          emails := emails + [parts[i]];
        }
        assert parts[..|parts|] == parts;
      }
    }

    /** The TEL properties of `_to_vcard`, added field by field. */
    static method TelsFor(entry: Section) returns (tels: seq<Tel>)
      ensures tels == TelsOf(entry)
    {
      tels := [];
      if "other" in entry {
        tels := tels + [Tel(None, entry["other"])];
      }
      if "phone" in entry {
        tels := tels + [Tel(Some("home"), entry["phone"])];
      }
      if "workphone" in entry {
        tels := tels + [Tel(Some("work"), entry["workphone"])];
      }
      if "mobile" in entry {
        tels := tels + [Tel(Some("cell"), entry["mobile"])];
      }
      TelsOfPieces(entry);
    }

    /** `to_vcards`: the card of every entry in file order, or the first error. */
    method ToVcards(file: FileState) returns (r: Result<seq<Card>, Error>)
      requires Valid() && ValidFile(file)
      modifies this
      ensures Valid()
      ensures Cache(lastModified, book) == Refresh(Cache(old(lastModified), old(book)), file)
      ensures r == CardsOf(book, fqdn, book.order)
    {
      Update(file);
      r := CardsFor(book, CardFn(book, fqdn));
    }

    /**
     * The cards of the entries of the parse `book`, in file order. The loop is
     * proved against `spec`, any function that gives each section its card.
     */
    method CardsFor(book: Book, ghost spec: string -> Result<Card, Error>) returns (r: Result<seq<Card>, Error>)
      requires Books.Valid(book)
      requires forall s {:trigger SectionCard(book, fqdn, s)} :: spec(s) == SectionCard(book, fqdn, s)
      ensures r == Collect(book.order, spec)
    {
      var cards: seq<Card> := [];
      for i := 0 to |book.order|
        invariant |cards| == i
        invariant forall j :: 0 <= j < i ==> spec(book.order[j]) == Success(cards[j])
      {
        InOrder(book, i);
        var c := CardFor(book, book.order[i], spec);
        if c.Failure? {
          CollectFirstFailure(book.order, spec, i);
          return Failure(c.error);
        }
        cards := cards + [c.value];
      }
      CollectAllSucceed(book.order, spec, cards);
      r := Success(cards);
    }

    /** The card of section `s` of the parse `book`. */
    method CardFor(book: Book, s: string, ghost spec: string -> Result<Card, Error>) returns (c: Result<Card, Error>)
      requires Books.Valid(book) && s in book.sections
      requires forall s {:trigger SectionCard(book, fqdn, s)} :: spec(s) == SectionCard(book, fqdn, s)
      ensures c == spec(s)
    {
      c := ToVcard(s, Entry(book, s));
      SectionCardOfEntry(book, fqdn, s);
    }

    /**
     * `to_vobjects`: one item per UID asked for, all entries when none is asked
     * for, or the error of the first UID that does not resolve to an entry with
     * a name.
     */
    method ToVobjects(uids: seq<string>, file: FileState, digest: Section -> string)
      returns (r: Result<seq<Item>, Error>)
      requires Valid() && ValidFile(file)
      modifies this
      ensures Valid()
      ensures Cache(lastModified, book) == Refresh(Cache(old(lastModified), old(book)), file)
      ensures r == ItemsOf(book, fqdn, Asked(uids, book, fqdn), digest)
    {
      ghost var before := Cache(lastModified, book);
      Update(file);
      var asked := uids;
      if asked == [] {
        asked := GetUids(file);
        RefreshIdempotent(before, file);
      }
      assert asked == Asked(uids, book, fqdn);
      r := ItemsFor(book, asked, digest, ItemFn(book, fqdn, digest));
    }

    /**
     * The items of `to_vobjects` for the given UIDs, read from the parse `book`.
     * The loop is proved against `spec`, any function that gives each UID its item.
     */
    method ItemsFor(book: Book, asked: seq<string>, digest: Section -> string,
                    ghost spec: string -> Result<Item, Error>) returns (r: Result<seq<Item>, Error>)
      requires forall u {:trigger ItemOf(book, fqdn, u, digest)} :: spec(u) == ItemOf(book, fqdn, u, digest)
      ensures r == Collect(asked, spec)
    {
      var items: seq<Item> := [];
      for i := 0 to |asked|
        invariant |items| == i
        invariant forall j :: 0 <= j < i ==> spec(asked[j]) == Success(items[j])
      {
        var item := ItemFor(book, asked[i], digest, spec);
        if item.Failure? {
          CollectFirstFailure(asked, spec, i);
          return Failure(item.error);
        }
        items := items + [item.value];
      }
      CollectAllSucceed(asked, spec, items);
      r := Success(items);
    }

    /** One element of `to_vobjects`, read from the parse `book`. */
    method ItemFor(book: Book, uid: string, digest: Section -> string,
                   ghost spec: string -> Result<Item, Error>) returns (r: Result<Item, Error>)
      requires forall u {:trigger ItemOf(book, fqdn, u, digest)} :: spec(u) == ItemOf(book, fqdn, u, digest)
      ensures r == spec(uid)
    {
      var key := ResolveUid(uid);
      var view := View(book, key);
      if view.None? {
        r := Failure(KeyError(key));
      } else {
        var entry := view.value;
        var etag := ETag(digest, entry);
        var card := ToVcard(key, entry);
        ItemOfCard(book, fqdn, uid, digest, entry);
        if card.Failure? {
          r := Failure(card.error);
        } else {
          r := Success(Item(uid, card.value, etag));
        }
      }
      assert r == ItemOf(book, fqdn, uid, digest);
    }

    /** `to_vobject_etag`: the card and fingerprint of one UID. */
    method ToVobjectEtag(uid: string, file: FileState, digest: Section -> string)
      returns (r: Result<(Card, string), Error>)
      requires Valid() && ValidFile(file)
      modifies this
      ensures Valid()
      ensures Cache(lastModified, book) == Refresh(Cache(old(lastModified), old(book)), file)
      ensures r.Success? <==> ItemOf(book, fqdn, uid, digest).Success?
      ensures r.Success? ==> r.value == (ItemOf(book, fqdn, uid, digest).value.card, ItemOf(book, fqdn, uid, digest).value.etag)
      ensures r.Failure? ==> r.error == ItemOf(book, fqdn, uid, digest).error
    {
      var items := ToVobjects([uid], file, digest);
      CollectSnoc([], uid, ItemFn(book, fqdn, digest));
      if items.Failure? {
        return Failure(items.error);
      }
      r := Success((items.value[0].card, items.value[0].etag));
    }

    /** `to_vobject`: the card of the entry a UID stands for. */
    method ToVobject(uid: string, file: FileState) returns (r: Result<Card, Error>)
      requires Valid() && ValidFile(file)
      modifies this
      ensures Valid()
      ensures Cache(lastModified, book) == Refresh(Cache(old(lastModified), old(book)), file)
      ensures r == SectionCard(book, fqdn, ResolveUid(uid))
    {
      Update(file);
      var key := ResolveUid(uid);
      var view := View(book, key);
      if view.None? {
        return Failure(KeyError(key));
      }
      r := ToVcard(key, view.value);
    }

    /**
     * `append_vobject`: re-reads the file, adds the card as the section one past
     * the largest index, and returns the book to write and the new UID. Every
     * other section is left as it was; a section name that is not an integer
     * aborts the append.
     */
    method AppendVobject(card: Card, file: FileState) returns (r: Result<Commit, Error>)
      requires ValidFile(file)
      ensures NextIndex(Fresh(file)).Failure? ==> r == Failure(NextIndex(Fresh(file)).error)
      ensures NextIndex(Fresh(file)).Success? ==>
        var before := Fresh(file);
        var section := Show(NextIndex(before).value);
        && r.Success?
        && section !in before.sections
        && r.value.uid == Uid(section, fqdn)
        && ResolveUid(r.value.uid) == section
        && r.value.written.defaults == before.defaults
        && r.value.written.order == before.order + [section]
        && r.value.written.sections == before.sections[section := AbookFields(card)]
    {
      var b := Fresh(file);
      var next := NextIndex(b);
      if next.Failure? {
        return Failure(next.error);
      }
      var section := Show(next.value);
      NewSectionIsFresh(b);
      assert '@' !in section by {
        assert !IsDigit('@');
      }
      UidResolves(section, fqdn);
      b := ToAbook(card, section, b);
      r := Success(Commit(b, Uid(section, fqdn)));
    }

    /**
     * `remove`: re-reads the file and deletes the section the UID stands for;
     * an unknown section is a KeyError and the format section cannot be
     * removed, and in both cases nothing is written.
     */
    method Remove(uid: string, file: FileState) returns (r: Result<Book, Error>)
      requires ValidFile(file)
      ensures var key := ResolveUid(uid);
        && (key == DEFAULT_SECTION ==> r == Failure(CannotRemoveDefault))
        && (key != DEFAULT_SECTION && key !in Fresh(file).sections ==> r == Failure(KeyError(key)))
        && (key != DEFAULT_SECTION && key in Fresh(file).sections ==>
              && r.Success?
              && r.value.defaults == Fresh(file).defaults
              && r.value.sections == Fresh(file).sections - {key}
              && r.value.order == Without(Fresh(file).order, key))
    {
      var b := Fresh(file);
      var key := ResolveUid(uid);
      if key == DEFAULT_SECTION {
        return Failure(CannotRemoveDefault);
      }
      if key !in b.sections {
        return Failure(KeyError(key));
      }
      r := Success(DeleteSection(b, key));
    }

    /**
     * `replace_vobject`: re-reads the file and overwrites (or creates) the
     * section the UID stands for. The UID it returns is looked up in the
     * cached parse, not in the book just written, so it fails with a KeyError
     * after the write when the cache does not know the section.
     */
    method ReplaceVobject(uid: string, card: Card, file: FileState) returns (written: Book, r: Result<string, Error>)
      requires ValidFile(file)
      ensures var entry := ResolveUid(uid);
        && written == SetSection(Fresh(file), entry, AbookFields(card))
        && (r.Success? <==> View(book, entry).Some?)
        && (r.Success? ==> r.value == Uid(entry, fqdn))
        && (r.Failure? ==> r.error == KeyError(entry))
    {
      var entry := ResolveUid(uid);
      var b := Fresh(file);
      written := ToAbook(card, entry, b);
      if View(book, entry).None? {
        return written, Failure(KeyError(entry));
      }
      r := Success(Uid(entry, fqdn));
    }

    /** `_conv_adr`: stores the non-empty address components into the section. */
    static method ConvAdr(adr: Address, entry: Section) returns (e: Section)
      ensures e == AdrFields(adr, entry)
    {
      e := entry;
      ghost var w: Section := map[];
      assert e == entry + w;
      var street := HasStreet(adr.street);
      if street {
        match adr.street {
          case Line(t) => e := e["address" := t];
          case Lines(ps) => e := e["address" := Join(ps, ',')];
        }
      }
      PutOnto(entry, w, "address", street, StreetText(adr.street));
      w := Put(w, "address", street, StreetText(adr.street));
      if adr.extended != "" {
        e := e["address2" := adr.extended];
      }
      PutOnto(entry, w, "address2", adr.extended != "", adr.extended);
      w := Put(w, "address2", adr.extended != "", adr.extended);
      if adr.city != "" {
        e := e["city" := adr.city];
      }
      PutOnto(entry, w, "city", adr.city != "", adr.city);
      w := Put(w, "city", adr.city != "", adr.city);
      if adr.region != "" {
        e := e["state" := adr.region];
      }
      PutOnto(entry, w, "state", adr.region != "", adr.region);
      w := Put(w, "state", adr.region != "", adr.region);
      var zip := adr.code != "" && adr.code != "0";
      if zip {
        e := e["zip" := adr.code];
      }
      PutOnto(entry, w, "zip", zip, adr.code);
      w := Put(w, "zip", zip, adr.code);
      if adr.country != "" {
        e := e["country" := adr.country];
      }
      PutOnto(entry, w, "country", adr.country != "", adr.country);
      w := Put(w, "country", adr.country != "", adr.country);
    }

    /** `_conv_tel_list`: stores each TEL property in turn under the field its type selects. */
    static method ConvTelList(tels: seq<Tel>, entry: Section) returns (e: Section)
      ensures e == TelFields(tels, entry)
    {
      e := entry;
      for i := 0 to |tels|
        invariant e == TelFields(tels[..i], entry)
      {
        var tel := tels[i];
        assert tels[..i + 1][..i] == tels[..i];
        match tel.kind {
          case None => e := e["other" := tel.number];
          case Some(ty) =>
            var l := Lower(ty);
            if l == "home" {
              e := e["phone" := tel.number];
            } else if l == "work" {
              e := e["workphone" := tel.number];
            } else if l == "cell" {
              e := e["mobile" := tel.number];
            }
        }
      }
      assert tels[..|tels|] == tels;
    }

    /**
     * `to_abook`: empties (or creates) the section and fills it from the card,
     * so no field of the old section survives.
     */
    static method ToAbook(card: Card, section: string, book: Book) returns (b: Book)
      requires Books.Valid(book)
      ensures Books.Valid(b)
      ensures b == SetSection(book, section, AbookFields(card))
    {
      var entry: Section := map["name" := card.fn];
      if |card.emails| > 0 {
        entry := entry["email" := Join(card.emails, ',')];
      }
      if card.adr.Some? {
        entry := ConvAdr(card.adr.value, entry);
      }
      entry := ConvTelList(card.tels, entry);
      if card.nickname.Some? && card.nickname.value != "" {
        entry := entry["nick" := card.nickname.value];
      }
      if card.url.Some? && card.url.value != "" {
        entry := entry["url" := card.url.value];
      }
      if card.note.Some? && card.note.value != "" {
        entry := entry["notes" := card.note.value];
      }
      b := SetSection(book, section, entry);
    }

    /**
     * `abook_file`: a new book with the format section and the cards as the
     * sections 0 to n-1, in order.
     */
    static method AbookFile(cards: seq<Card>) returns (b: Book)
      ensures Books.Valid(b)
      ensures b.defaults == FORMAT_FIELDS
      ensures |b.order| == |cards| && forall i :: 0 <= i < |cards| ==> b.order[i] == Show(i)
      ensures forall i :: 0 <= i < |cards| ==> Show(i) in b.sections && b.sections[Show(i)] == AbookFields(cards[i])
    {
      b := NumberedBook(cards, AbookFields);
    }

    /**
     * The loop of `abook_file`, proved against `spec`, any function that gives
     * each card the fields `to_abook` writes for it.
     */
    static method NumberedBook(cards: seq<Card>, ghost spec: Card -> Section) returns (b: Book)
      requires forall c {:trigger AbookFields(c)} :: spec(c) == AbookFields(c)
      ensures Books.Valid(b)
      ensures b.defaults == FORMAT_FIELDS
      ensures |b.order| == |cards| && forall i :: 0 <= i < |cards| ==> b.order[i] == Show(i)
      ensures forall i :: 0 <= i < |cards| ==> Show(i) in b.sections && b.sections[Show(i)] == spec(cards[i])
    {
      b := SetSection(EMPTY_BOOK, DEFAULT_SECTION, FORMAT_FIELDS);
      for i := 0 to |cards|
        invariant Books.Valid(b) && b.defaults == FORMAT_FIELDS
        invariant |b.order| == i && forall j :: 0 <= j < i ==> b.order[j] == Show(j)
        invariant forall j :: 0 <= j < i ==> Show(j) in b.sections && b.sections[Show(j)] == spec(cards[j])
      {
        AddNumbered(b, i, spec(cards[i]));
        b := WriteCard(cards[i], Show(i), b, spec);
      }
    }

    /** `to_abook` seen through `spec`. */
    static method WriteCard(card: Card, section: string, book: Book, ghost spec: Card -> Section) returns (b: Book)
      requires Books.Valid(book)
      requires forall c {:trigger AbookFields(c)} :: spec(c) == AbookFields(c)
      ensures b == SetSection(book, section, spec(card))
    {
      b := ToAbook(card, section, book);
    }
  }

  /**
   * A replace right after this store's own append, with no refresh between
   * them: the file is written, but the UID lookup in the stale cache raises.
   */
  method ReplaceAfterOwnAppend() returns (r: Result<string, Error>)
    ensures r == Failure(KeyError("0"))
  {
    var store := new Abook("example.org", Missing);
    var card := Card("", "Bob Lee", Name("Lee", "Bob"), [], None, [], None, None, None);
    var appended := store.AppendVobject(card, Missing);
    assert Show(0) == "0";
    UidResolves("0", "example.org");
    var file := Present(1, appended.value.written);
    var written;
    written, r := store.ReplaceVobject(appended.value.uid, card, file);
  }
}
