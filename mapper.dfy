/**
 * The field mapping between one Abook section and one vCard, in both
 * directions, as specification functions. The store's methods build their
 * results step by step and are proved equal to these functions; the lemmas
 * at the end state what the two directions do to each other.
 */
module Mapper {
  import opened Wrappers
  import opened Text
  import opened VCard
  import opened Books

  /** Every field name the reverse mapping can write. */
  const RECOGNIZED_KEYS: set<string> := {
    "name", "email", "address", "address2", "city", "state", "zip", "country",
    "other", "phone", "workphone", "mobile", "nick", "url", "notes"}

  // ---------------------------------------------------------------------------
  // Identifiers

  /** The UID of a section: its name, `@`, the host's domain name. */
  function Uid(section: string, fqdn: string): string {
    section + "@" + fqdn
  }

  /** A UID starts with its section name and, when that name has no `@`, resolves back to it. */
  lemma UidResolves(section: string, fqdn: string)
    ensures var uid := Uid(section, fqdn);
      && |uid| > |section| && uid[..|section|] == section && uid[|section|] == '@'
      && ('@' !in section ==> ResolveUid(uid) == section)
  {
    var uid := Uid(section, fqdn);
    assert uid[..|section|] == section;
    if '@' !in section {
      SplitAtFirst(section, fqdn, '@');
    }
  }

  /** `uid.split("@")[0]`: the section name a UID stands for. */
  function ResolveUid(uid: string): (section: string)
    ensures '@' !in section && section <= uid
    ensures '@' !in uid ==> section == uid
    ensures '@' in uid ==> |section| < |uid| && uid[|section|] == '@'
  {
    SplitHeadIsPrefix(uid, '@');
    if '@' !in uid then
      SplitWithoutSeparator(uid, '@');
      Split(uid, '@')[0]
    else
      SplitHeadEndsAtSeparator(uid, '@');
      Split(uid, '@')[0]
  }

  // ---------------------------------------------------------------------------
  // Abook section to vCard

  /**
   * `_gen_name`: the family name is what follows the last space and the given
   * name what precedes it; a name without a space is both.
   */
  function GenName(name: string): (n: Name)
    ensures ' ' !in name ==> n.family == name && n.given == name
    ensures ' ' in name ==> name == n.given + " " + n.family && ' ' !in n.family
  {
    match LastIndex(name, ' ')
    case None => Name(name, name)
    case Some(i) =>
      assert name == name[..i] + " " + name[i + 1..];
      Name(name[i + 1..], name[..i])
  }

  /** `entry.get(key, "")`. */
  function Get(e: Section, key: string): string {
    if key in e then e[key] else ""
  }

  /** `_gen_addr`: the six address components, a missing one as the empty string. */
  function GenAddr(e: Section): Address {
    Address(
      street := Line(Get(e, "address")),
      extended := Get(e, "address2"),
      city := Get(e, "city"),
      region := Get(e, "state"),
      code := Get(e, "zip"),
      country := Get(e, "country"))
  }

  /**
   * Whether the card gets an address. The source's list of components names
   * `country` twice and `state` not at all, so `state` alone does not count.
   */
  predicate HasAddress(e: Section) {
    "address" in e || "address2" in e || "city" in e || "country" in e || "zip" in e
  }

  /** The TEL property `_to_vcard` adds for `field`, with TYPE `kind`, when the field is present. */
  function TelPiece(e: Section, field: string, kind: Option<string>): seq<Tel> {
    if field in e then [Tel(kind, e[field])] else []
  }

  /** The fields `_to_vcard` turns into TEL properties, each with its TYPE, in the order it adds them. */
  const TEL_FIELDS: seq<(string, Option<string>)> :=
    [("other", None), ("phone", Some("home")), ("workphone", Some("work")), ("mobile", Some("cell"))]

  /** The TEL properties for the fields of `kinds` present in `e`, in order. */
  function TelsFrom(e: Section, kinds: seq<(string, Option<string>)>): seq<Tel> {
    if kinds == [] then [] else TelPiece(e, kinds[0].0, kinds[0].1) + TelsFrom(e, kinds[1..])
  }

  /** The TEL properties, in the order `_to_vcard` adds them. */
  function TelsOf(e: Section): seq<Tel> {
    TelsFrom(e, TEL_FIELDS)
  }

  /** The TEL properties field by field. */
  lemma TelsOfPieces(e: Section)
    ensures TelsOf(e) ==
      TelPiece(e, "other", None) + TelPiece(e, "phone", Some("home"))
      + TelPiece(e, "workphone", Some("work")) + TelPiece(e, "mobile", Some("cell"))
  {
    var k := TEL_FIELDS;
    assert k[1..][1..][1..][1..] == [];
    var t3 := TelPiece(e, "mobile", Some("cell"));
    var t2 := TelPiece(e, "workphone", Some("work"));
    var t1 := TelPiece(e, "phone", Some("home"));
    var t0 := TelPiece(e, "other", None);
    assert TelsFrom(e, k[1..][1..][1..]) == t3;
    assert TelsFrom(e, k[1..][1..]) == t2 + t3;
    assert TelsFrom(e, k[1..]) == t1 + (t2 + t3);
    assert TelsOf(e) == t0 + (t1 + (t2 + t3));
    assert t0 + (t1 + (t2 + t3)) == t0 + t1 + t2 + t3;
  }

  function OptionalField(e: Section, key: string): Option<string> {
    if key in e then Some(e[key]) else None
  }

  /** `_to_vcard` on the section named `section` whose fields are `e`; a missing name is a KeyError. */
  function CardOf(section: string, fqdn: string, e: Section): (r: Result<Card, Error>)
  {
    if "name" !in e then Failure(KeyError("name"))
    else
      Success(Card(
        uid := Uid(section, fqdn),
        fn := e["name"],
        n := GenName(e["name"]),
        emails := if "email" in e then Split(e["email"], ',') else [],
        adr := if HasAddress(e) then Some(GenAddr(e)) else None,
        tels := TelsOf(e),
        nickname := OptionalField(e, "nick"),
        url := OptionalField(e, "url"),
        note := OptionalField(e, "notes")))
  }

  // ---------------------------------------------------------------------------
  // vCard to Abook section

  /** Python truthiness of the street: a non-empty string or a non-empty list. */
  predicate HasStreet(s: Street) {
    match s
    case Line(t) => t != ""
    case Lines(ps) => ps != []
  }

  /** The street as one field value; a list is joined with commas. */
  function StreetText(s: Street): string {
    match s
    case Line(t) => t
    case Lines(ps) => Join(ps, ',')
  }

  /**
   * Field `k` of `r` is `v` when `written`, and otherwise as it was in `e`
   * (present with the same value, or absent).
   */
  ghost predicate Stored(e: Section, r: Section, k: string, written: bool, v: string) {
    && (k in r <==> written || k in e)
    && (k in r ==> r[k] == if written then v else e[k])
  }

  /** `if written: entry[k] = v`. */
  function Put(e: Section, k: string, written: bool, v: string): Section {
    if written then e[k := v] else e
  }

  /** The address fields `_conv_adr` can write. */
  const ADDRESS_KEYS: set<string> := {"address", "address2", "city", "state", "zip", "country"}

  /** The fields `_conv_adr` writes for an address, on their own. */
  function AdrWritten(a: Address): Section {
    var w1 := Put(map[], "address", HasStreet(a.street), StreetText(a.street));
    var w2 := Put(w1, "address2", a.extended != "", a.extended);
    var w3 := Put(w2, "city", a.city != "", a.city);
    var w4 := Put(w3, "state", a.region != "", a.region);
    var w5 := Put(w4, "zip", a.code != "" && a.code != "0", a.code);
    Put(w5, "country", a.country != "", a.country)
  }

  /** `_conv_adr` on the section `e`: the address fields written over it. */
  function AdrFields(a: Address, e: Section): Section {
    e + AdrWritten(a)
  }

  /** Each of the six fields is written exactly when its component is non-empty (zip: and not "0"). */
  lemma AdrWrittenMeaning(a: Address)
    ensures var w := AdrWritten(a);
      && w.Keys <= ADDRESS_KEYS
      && Stored(map[], w, "address", HasStreet(a.street), StreetText(a.street))
      && Stored(map[], w, "address2", a.extended != "", a.extended)
      && Stored(map[], w, "city", a.city != "", a.city)
      && Stored(map[], w, "state", a.region != "", a.region)
      && Stored(map[], w, "zip", a.code != "" && a.code != "0", a.code)
      && Stored(map[], w, "country", a.country != "", a.country)
  {
  }

  /**
   * `_conv_adr`: each address component that is non-empty is stored under its
   * field, a street list joined with commas; a postal code of "0" is never
   * stored; fields other than the six address fields are left alone.
   */
  lemma AdrFieldsMeaning(a: Address, e: Section)
    ensures var r := AdrFields(a, e);
      && Stored(e, r, "address", HasStreet(a.street), StreetText(a.street))
      && Stored(e, r, "address2", a.extended != "", a.extended)
      && Stored(e, r, "city", a.city != "", a.city)
      && Stored(e, r, "state", a.region != "", a.region)
      && Stored(e, r, "zip", a.code != "" && a.code != "0", a.code)
      && Stored(e, r, "country", a.country != "", a.country)
      && (forall k :: k !in ADDRESS_KEYS ==> (k in r <==> k in e) && (k in e ==> r[k] == e[k]))
      && ("zip" in r && r["zip"] == "0" ==> "zip" in e && e["zip"] == "0")
  {
    AdrWrittenMeaning(a);
  }

  /**
   * The field a TEL property goes to: no TYPE gives `other`; `home`, `work`
   * and `cell`, in any case, give `phone`, `workphone` and `mobile`; any other
   * type gives none.
   */
  function TelKey(t: Tel): (k: Option<string>)
    ensures k.Some? ==> k.value in TEL_KEYS
  {
    match t.kind
    case None => Some("other")
    case Some(ty) =>
      var l := Lower(ty);
      if l == "home" then Some("phone")
      else if l == "work" then Some("workphone")
      else if l == "cell" then Some("mobile")
      else None
  }

  /** `_conv_tel_list`: the fields after storing the TEL properties one after the other. */
  function TelFields(tels: seq<Tel>, e: Section): Section
    decreases |tels|
  {
    if tels == [] then e
    else
      var before := TelFields(tels[..|tels| - 1], e);
      var t := tels[|tels| - 1];
      match TelKey(t)
      case None => before
      case Some(k) => before[k := t.number]
  }

  /** The value of the last TEL property that goes to field `k`, if any does. */
  function LastOfKind(tels: seq<Tel>, k: string): Option<string>
    decreases |tels|
  {
    if tels == [] then None
    else if TelKey(tels[|tels| - 1]) == Some(k) then Some(tels[|tels| - 1].number)
    else LastOfKind(tels[..|tels| - 1], k)
  }

  /** The fields `to_abook` writes before the telephone numbers: name, email, address. */
  function ContactFields(c: Card): Section {
    var e0: Section := map["name" := c.fn];
    var e1 := Put(e0, "email", |c.emails| > 0, Join(c.emails, ','));
    if c.adr.Some? then AdrFields(c.adr.value, e1) else e1
  }

  /** The section `to_abook` writes for a card: it starts from no fields at all. */
  function AbookFields(c: Card): Section {
    var e3 := TelFields(c.tels, ContactFields(c));
    var e4 := Put(e3, "nick", c.nickname.Some? && c.nickname.value != "", ValueOr(c.nickname));
    var e5 := Put(e4, "url", c.url.Some? && c.url.value != "", ValueOr(c.url));
    Put(e5, "notes", c.note.Some? && c.note.value != "", ValueOr(c.note))
  }

  /** The value of an optional property, or "" when it is absent. */
  function ValueOr(o: Option<string>): string {
    if o.Some? then o.value else ""
  }

  // ---------------------------------------------------------------------------
  // What the two directions do

  /** The field names a TEL property can go to. */
  const TEL_KEYS: set<string> := {"other", "phone", "workphone", "mobile"}

  /**
   * `_conv_tel_list` in words: field `k` ends up with the value of the last TEL
   * property that goes to `k`, so a later one overwrites an earlier one; with no
   * such property the field is as it was.
   */
  lemma {:induction false} TelFieldsLast(tels: seq<Tel>, e: Section, k: string)
    ensures Stored(e, TelFields(tels, e), k, LastOfKind(tels, k).Some?, ValueOr(LastOfKind(tels, k)))
    decreases |tels|
  {
    if tels != [] {
      TelFieldsLast(tels[..|tels| - 1], e, k);
    }
  }

  /** Only the four telephone fields can be the target of a TEL property. */
  lemma LastOfKindOnlyTelKeys(tels: seq<Tel>, k: string)
    requires k !in TEL_KEYS
    ensures LastOfKind(tels, k) == None
    decreases |tels|
  {
    if tels != [] {
      LastOfKindOnlyTelKeys(tels[..|tels| - 1], k);
    }
  }

  /** The last TEL of a kind in `a + b` is the last one in `b`, failing that in `a`. */
  lemma {:induction false} LastOfKindConcat(a: seq<Tel>, b: seq<Tel>, k: string)
    ensures LastOfKind(a + b, k) == if LastOfKind(b, k).Some? then LastOfKind(b, k) else LastOfKind(a, k)
    decreases |b|
  {
    if b == [] {
      assert a + b == a;
    } else {
      assert (a + b)[..|a + b| - 1] == a + b[..|b| - 1];
      LastOfKindConcat(a, b[..|b| - 1], k);
    }
  }

  /** The lower-case type names the forward mapping writes are recognised again. */
  lemma TelKeysOfForwardTypes(x: string)
    ensures TelKey(Tel(None, x)) == Some("other")
    ensures TelKey(Tel(Some("home"), x)) == Some("phone")
    ensures TelKey(Tel(Some("work"), x)) == Some("workphone")
    ensures TelKey(Tel(Some("cell"), x)) == Some("mobile")
  {
    LowerOfLowerCase("home");
    LowerOfLowerCase("work");
    LowerOfLowerCase("cell");
  }

  /**
   * The dispatch of `_conv_tel_list` in full: no TYPE gives `other`; a TYPE
   * goes to `phone`, `workphone` or `mobile` exactly when its lower-case form
   * is `home`, `work` or `cell`; any other TYPE goes nowhere.
   */
  lemma TelKeyMeaning(t: Tel)
    ensures t.kind.None? ==> TelKey(t) == Some("other")
    ensures t.kind.Some? ==> TelKey(t) != Some("other")
    ensures t.kind.Some? ==> (TelKey(t) == Some("phone") <==> Lower(t.kind.value) == "home")
    ensures t.kind.Some? ==> (TelKey(t) == Some("workphone") <==> Lower(t.kind.value) == "work")
    ensures t.kind.Some? ==> (TelKey(t) == Some("mobile") <==> Lower(t.kind.value) == "cell")
    ensures t.kind.Some? && Lower(t.kind.value) !in {"home", "work", "cell"} ==> TelKey(t) == None
  {
  }

  /** Two TYPEs that differ only in letter case go to the same field. */
  lemma TelKeyIgnoresCase(a: string, b: string, x: string)
    requires Lower(a) == Lower(b)
    ensures TelKey(Tel(Some(a), x)) == TelKey(Tel(Some(b), x))
  {
  }

  /** Upper-case and mixed-case spellings of the three types are recognised. */
  lemma TelKeyOfOtherCases(x: string)
    ensures TelKey(Tel(Some("HOME"), x)) == Some("phone")
    ensures TelKey(Tel(Some("Work"), x)) == Some("workphone")
    ensures TelKey(Tel(Some("CELL"), x)) == Some("mobile")
  {
    assert Lower("HOME") == "home" by {
      var l := Lower("HOME");
      assert l[0] == 'h' && l[1] == 'o' && l[2] == 'm' && l[3] == 'e';
    }
    assert Lower("Work") == "work" by {
      var l := Lower("Work");
      assert l[0] == 'w' && l[1] == 'o' && l[2] == 'r' && l[3] == 'k';
    }
    assert Lower("CELL") == "cell" by {
      var l := Lower("CELL");
      assert l[0] == 'c' && l[1] == 'e' && l[2] == 'l' && l[3] == 'l';
    }
  }

  /** A TEL property of any other type leaves the section as it was. */
  lemma TelFieldsSkipsUnknown(tels: seq<Tel>, t: Tel, e: Section)
    requires TelKey(t) == None
    ensures TelFields(tels + [t], e) == TelFields(tels, e)
  {
    var all := tels + [t];
    assert all[..|all| - 1] == tels;
  }

  /** A TEL piece contributes its field's value to that field only. */
  lemma TelPieceLast(e: Section, field: string, kind: Option<string>, k: string)
    requires TelKey(Tel(kind, Get(e, field))) == Some(field)
    ensures LastOfKind(TelPiece(e, field, kind), k) == if field == k then OptionalField(e, field) else None
  {
  }

  /** Each of the four telephone fields of a section comes back from its TEL property. */
  lemma TelsOfLast(e: Section, k: string)
    requires k in TEL_KEYS
    ensures LastOfKind(TelsOf(e), k) == OptionalField(e, k)
  {
    TelsOfPieces(e);
    TelKeysOfForwardTypes(Get(e, "other"));
    TelKeysOfForwardTypes(Get(e, "phone"));
    TelKeysOfForwardTypes(Get(e, "workphone"));
    TelKeysOfForwardTypes(Get(e, "mobile"));
    var t0 := TelPiece(e, "other", None);
    var t1 := TelPiece(e, "phone", Some("home"));
    var t2 := TelPiece(e, "workphone", Some("work"));
    var t3 := TelPiece(e, "mobile", Some("cell"));
    TelPieceLast(e, "other", None, k);
    TelPieceLast(e, "phone", Some("home"), k);
    TelPieceLast(e, "workphone", Some("work"), k);
    TelPieceLast(e, "mobile", Some("cell"), k);
    LastOfKindConcat(t0 + t1 + t2, t3, k);
    LastOfKindConcat(t0 + t1, t2, k);
    LastOfKindConcat(t0, t1, k);
  }

  /** The telephone fields are the only ones `_conv_tel_list` touches. */
  lemma TelFieldsFrame(tels: seq<Tel>, e: Section, k: string)
    requires k !in TEL_KEYS
    ensures (k in TelFields(tels, e) <==> k in e) && (k in e ==> TelFields(tels, e)[k] == e[k])
  {
    TelFieldsLast(tels, e, k);
    LastOfKindOnlyTelKeys(tels, k);
  }

  /** `to_abook` writes only field names the forward mapping reads, and always `name`. */
  lemma ReverseKeys(c: Card)
    ensures AbookFields(c).Keys <= RECOGNIZED_KEYS
    ensures "name" in AbookFields(c) && AbookFields(c)["name"] == c.fn
  {
    var e2 := ContactFields(c);
    ContactFieldsKeys(c);
    var e3 := TelFields(c.tels, e2);
    forall k | k in e3
      ensures k in RECOGNIZED_KEYS
    {
      if k !in TEL_KEYS {
        TelFieldsFrame(c.tels, e2, k);
      }
    }
    TelFieldsFrame(c.tels, e2, "name");
  }

  /**
   * The email field of the written section: the EMAIL values joined with
   * commas, present exactly when the card has an EMAIL property.
   */
  lemma ReverseEmail(c: Card)
    ensures Stored(map[], AbookFields(c), "email", |c.emails| > 0, Join(c.emails, ','))
  {
    TelFieldsFrame(c.tels, ContactFields(c), "email");
  }

  /**
   * The address fields of the written section: absent without an ADR property,
   * and otherwise exactly what `_conv_adr` writes for it.
   */
  lemma ReverseAddress(c: Card, k: string)
    requires k in ADDRESS_KEYS
    ensures c.adr.None? ==> k !in AbookFields(c)
    ensures c.adr.Some? ==> Stored(map[], AbookFields(c), k, k in AdrWritten(c.adr.value), Get(AdrWritten(c.adr.value), k))
  {
    TelFieldsFrame(c.tels, ContactFields(c), k);
  }

  /** Before the telephone numbers only the name, the email and the address fields are written. */
  lemma ContactFieldsKeys(c: Card)
    ensures ContactFields(c).Keys <= {"name", "email"} + ADDRESS_KEYS
    ensures "name" in ContactFields(c) && ContactFields(c)["name"] == c.fn
  {
    if c.adr.Some? {
      AdrWrittenMeaning(c.adr.value);
    }
  }

  lemma ContactFieldsNoTel(c: Card, k: string)
    requires k in TEL_KEYS
    ensures k !in ContactFields(c)
  {
    ContactFieldsKeys(c);
  }

  /** The telephone fields of the written section: the last TEL property of each kind. */
  lemma ReverseTel(c: Card, k: string)
    requires k in TEL_KEYS
    ensures Stored(map[], AbookFields(c), k, LastOfKind(c.tels, k).Some?, ValueOr(LastOfKind(c.tels, k)))
  {
    var e2 := ContactFields(c);
    ContactFieldsNoTel(c, k);
    TelFieldsLast(c.tels, e2, k);
  }

  /** `nick`, `url` and `notes` are written only from a property with a non-empty value. */
  lemma ReverseOptional(c: Card)
    ensures Stored(map[], AbookFields(c), "nick", c.nickname.Some? && c.nickname.value != "", ValueOr(c.nickname))
    ensures Stored(map[], AbookFields(c), "url", c.url.Some? && c.url.value != "", ValueOr(c.url))
    ensures Stored(map[], AbookFields(c), "notes", c.note.Some? && c.note.value != "", ValueOr(c.note))
  {
    ContactFieldsKeys(c);
    TelFieldsFrame(c.tels, ContactFields(c), "nick");
    TelFieldsFrame(c.tels, ContactFields(c), "url");
    TelFieldsFrame(c.tels, ContactFields(c), "notes");
  }

  // ---------------------------------------------------------------------------
  // Abook section to vCard and back

  /** Field `k` comes back exactly: present with the same value, or absent. */
  ghost predicate Kept(e: Section, r: Section, k: string) {
    Stored(map[], r, k, k in e, Get(e, k))
  }

  /** Field `k` comes back when its value is non-empty, and is dropped otherwise. */
  ghost predicate KeptIfSet(e: Section, r: Section, k: string) {
    Stored(map[], r, k, Get(e, k) != "", Get(e, k))
  }

  /** The section written back for the card of section `e`. */
  function RoundTrip(section: string, fqdn: string, e: Section): Section
    requires "name" in e
  {
    AbookFields(CardOf(section, fqdn, e).value)
  }

  /** The email field survives the trip unchanged: split on commas, joined with commas. */
  lemma {:induction false} RoundTripEmail(section: string, fqdn: string, e: Section)
    requires "name" in e
    ensures Kept(e, RoundTrip(section, fqdn, e), "email")
  {
    ReverseEmail(CardOf(section, fqdn, e).value);
    if "email" in e {
      JoinSplit(e["email"], ',');
    }
  }

  /** The four telephone fields survive the trip unchanged. */
  lemma {:induction false} RoundTripTel(section: string, fqdn: string, e: Section, k: string)
    requires "name" in e && k in TEL_KEYS
    ensures Kept(e, RoundTrip(section, fqdn, e), k)
  {
    ReverseTel(CardOf(section, fqdn, e).value, k);
    TelsOfLast(e, k);
  }

  /**
   * The address fields: a non-empty street, extension, city or country comes
   * back; a postal code comes back unless it is "0"; a state comes back only
   * when one of the other address fields is present. Empty ones are dropped.
   */
  lemma {:induction false} RoundTripAddress(section: string, fqdn: string, e: Section)
    requires "name" in e
    ensures var r := RoundTrip(section, fqdn, e);
      && KeptIfSet(e, r, "address")
      && KeptIfSet(e, r, "address2")
      && KeptIfSet(e, r, "city")
      && KeptIfSet(e, r, "country")
      && Stored(map[], r, "state", HasAddress(e) && Get(e, "state") != "", Get(e, "state"))
      && Stored(map[], r, "zip", Get(e, "zip") != "" && Get(e, "zip") != "0", Get(e, "zip"))
  {
    var c := CardOf(section, fqdn, e).value;
    AdrWrittenMeaning(GenAddr(e));
    ReverseAddress(c, "address");
    ReverseAddress(c, "address2");
    ReverseAddress(c, "city");
    ReverseAddress(c, "country");
    ReverseAddress(c, "state");
    ReverseAddress(c, "zip");
  }

  /** `nick`, `url` and `notes` come back when non-empty and are dropped when empty. */
  lemma {:induction false} RoundTripOptional(section: string, fqdn: string, e: Section)
    requires "name" in e
    ensures var r := RoundTrip(section, fqdn, e);
      KeptIfSet(e, r, "nick") && KeptIfSet(e, r, "url") && KeptIfSet(e, r, "notes")
  {
    ReverseOptional(CardOf(section, fqdn, e).value);
  }

  /**
   * Converting a section to a vCard and back: the name, the email list and the
   * telephone fields come back unchanged, the other recognised fields come back
   * unless empty (and a postal code of "0" or a state without any other address
   * field is lost), and every other field, unrecognised ones included, is lost.
   */
  lemma {:induction false} SectionRoundTrip(section: string, fqdn: string, e: Section)
    requires "name" in e
    ensures var r := RoundTrip(section, fqdn, e);
      && r.Keys <= RECOGNIZED_KEYS
      && "name" in r && r["name"] == e["name"]
      && Kept(e, r, "email")
      && Kept(e, r, "other") && Kept(e, r, "phone") && Kept(e, r, "workphone") && Kept(e, r, "mobile")
      && KeptIfSet(e, r, "address") && KeptIfSet(e, r, "address2")
      && KeptIfSet(e, r, "city") && KeptIfSet(e, r, "country")
      && Stored(map[], r, "state", HasAddress(e) && Get(e, "state") != "", Get(e, "state"))
      && Stored(map[], r, "zip", Get(e, "zip") != "" && Get(e, "zip") != "0", Get(e, "zip"))
      && KeptIfSet(e, r, "nick") && KeptIfSet(e, r, "url") && KeptIfSet(e, r, "notes")
  {
    ReverseKeys(CardOf(section, fqdn, e).value);
    RoundTripEmail(section, fqdn, e);
    RoundTripTel(section, fqdn, e, "other");
    RoundTripTel(section, fqdn, e, "phone");
    RoundTripTel(section, fqdn, e, "workphone");
    RoundTripTel(section, fqdn, e, "mobile");
    RoundTripAddress(section, fqdn, e);
    RoundTripOptional(section, fqdn, e);
  }

  /** The quirk of the address rule: a section whose only address field is `state` loses it. */
  lemma StateAloneIsDropped(section: string, fqdn: string, e: Section)
    requires "name" in e && "state" in e
    requires "address" !in e && "address2" !in e && "city" !in e && "zip" !in e && "country" !in e
    ensures "state" !in RoundTrip(section, fqdn, e)
  {
    RoundTripAddress(section, fqdn, e);
  }

  /**
   * vCard to Abook and back: the EMAIL values come back in order when none of
   * them holds a comma, and the name comes back as FN and as its N split.
   */
  lemma {:induction false} CardRoundTrip(c: Card, section: string, fqdn: string)
    requires forall i :: 0 <= i < |c.emails| ==> ',' !in c.emails[i]
    ensures CardOf(section, fqdn, AbookFields(c)).Success?
    ensures var d := CardOf(section, fqdn, AbookFields(c)).value;
      d.fn == c.fn && d.n == GenName(c.fn) && d.emails == c.emails && d.uid == Uid(section, fqdn)
  {
    ReverseKeys(c);
    ReverseEmail(c);
    if |c.emails| > 0 {
      SplitJoin(c.emails, ',');
    }
  }
}
