# python-abook in Dafny

A model of `abook.py` and its proofs. This module of python-abook lets the
address book of the `abook` terminal program serve as a vCard collection.

- **The book.** An Abook file is an INI file. It has a `format` section, which
  is the parser's default section and whose keys every section inherits, and
  one section per contact, named by its index `0`, `1`, ….
- **The store.** The class `Abook` keeps a cached parse of the file and the
  file's modification time. It reads contacts out as vCards and writes vCards
  back as sections.
- **UIDs.** A contact's UID is its section name, `@`, and the host's domain
  name.

The model has six modules:

- `Wrappers`: `Option` and `Result`.
- `Text`: the string operations the code uses. These are `split` and `join`
  with a one-character separator, the last space for `rsplit`, ASCII `lower`,
  `str(n)` and `int(s)`.
- `VCard`: the vCard properties the converter reads and writes, as a record.
- `Books`: the parsed INI file. It holds the default section, the other sections
  in file order, and each section's fields. It also has the parser's item
  lookup, assignment and deletion.
- `Mapper`: the conversion in both directions, as specification functions, and
  the lemmas that say what it does to each direction.
  - `CardOf` is `_to_vcard`.
  - `AbookFields` is what `to_abook` writes.
  - `AdrFields` is `_conv_adr` and `TelFields` is `_conv_tel_list`.
- `Store`: the class `Abook`, whose fields are the cached parse and the
  modification time. Its methods work step by step, as the source does, and
  each one is proved equal to its specification function. `Store` also holds
  the lemmas about index allocation, UID lookup and cache refresh.

How the outside world appears in the model:

- **The file.** Each operation is given the file's state, as a `FileState`: the
  file is missing, or present with a modification time and its parsed content.
  Writing operations return the book they would write.
- **The host name** is a constructor parameter.
- **The SHA-1 of an entry** is a `digest` function parameter.

## Model

| member | source | states |
|---|---|---|
| Text.Split | abook.py:159 | `str.split` on one separator gives at least one piece, and no piece contains the separator |
| Text.JoinSplit | abook.py:159 | joining the comma-split pieces with commas gives back the original string, empty pieces included |
| Text.SplitJoin | abook.py:301 | splitting a comma-join gives back the list when no element holds a comma |
| Text.Join | abook.py:301 | `",".join(...)`; the round trips with `Split` are stated by `Text.JoinSplit` and `Text.SplitJoin` |
| Text.SplitHeadEndsAtSeparator | abook.py:85 | the first piece of a split ends just before the first separator |
| Text.LastIndex | abook.py:123 | the last occurrence of a character: none exactly when the character is absent, otherwise a position holding it with none after it |
| Text.Lower | abook.py:287-291 | `lower()` keeps the length and lower-cases each ASCII letter |
| Text.Show | abook.py:70 | `str(n)` of a natural number is a non-empty run of decimal digits |
| Text.ParseInt | abook.py:70 | `int(k)` for an optional sign followed by decimal digits, and `None` where `int()` raises; `Text.ParseShow` reads back every allocated index |
| Text.ParseShow | abook.py:70 | `int(str(n)) == n`, so an allocated index reads back as that index |
| Text.ShowInjective | abook.py:70 | distinct indices give distinct section names |
| Books.Fresh | abook.py:53-54 | reading the file gives a well-formed book with no section named `""`; a missing file reads as empty and a present one as its content |
| Books.EntryFallsBack | abook.py:247 | a field of an entry (`Books.Entry`) is the section's own value, and failing that the format section's |
| Books.View | abook.py:247 | `book[s]` succeeds exactly for the default section and for existing sections; it gives the format fields for `format` and an entry's fields over the format defaults for any other section |
| Books.SetSection | abook.py:297-316 | `book[s] = {}` plus the fields: an existing section is replaced in place, a new one is added at the end, the default section's fields are replaced, and every other section is unchanged; for the empty name `""` the parser adds an empty section and lays the fields over the defaults |
| Books.Without | abook.py:85 | the section order without the deleted name holds exactly the other names, and stays without repetitions |
| Books.WithoutAt | abook.py:85 | in a list without repetitions, taking out a name removes just its one position, so the others keep their order |
| Books.DeleteSection | abook.py:85 | `del book[s]` takes out exactly that section, leaves the defaults and the other sections alone, and keeps the others in file order |
| Mapper.Uid | abook.py:118 | the section name, `@`, the domain name; `Mapper.UidResolves` states how it reads back |
| Mapper.UidResolves | abook.py:113-118 | a UID starts with its section name followed by `@`, and when the name has no `@` the lookup rule resolves the UID back to it |
| Mapper.ResolveUid | abook.py:85 | `uid.split("@")[0]` is the prefix of the UID that ends just before its first `@`, and a UID without `@` resolves to itself |
| Mapper.GenName | abook.py:120-123 | the family name is the text after the last space and the given name the text before it; a name with no space is both the family and the given name |
| Mapper.GenAddr | abook.py:126-135 | the six address components, a missing field as `""`; its use is stated by `Mapper.RoundTripAddress` |
| Mapper.HasAddress | abook.py:162-163 | whether `_to_vcard` adds an ADR: one of `address`, `address2`, `city`, `country`, `zip` is present; `Mapper.StateAloneIsDropped` shows the effect of the missing `state` |
| Mapper.CardOf | abook.py:150-196 | `_to_vcard` on a section; `Store.Abook.ToVcard` is proved equal to it, and `Mapper.SectionRoundTrip` and `Mapper.CardRoundTrip` state what it does together with `Mapper.AbookFields` |
| Mapper.AdrWritten | abook.py:262-279 | the fields `_conv_adr` writes, on their own; stated by `Mapper.AdrWrittenMeaning` |
| Mapper.AdrFields | abook.py:262-279 | `_conv_adr` on a section; stated by `Mapper.AdrFieldsMeaning` and matched by `Store.Abook.ConvAdr` |
| Mapper.TelFields | abook.py:281-292 | `_conv_tel_list` on a section; stated by `Mapper.TelFieldsLast` and `Mapper.TelFieldsFrame`, and matched by `Store.Abook.ConvTelList` |
| Mapper.AbookFields | abook.py:294-316 | the section `to_abook` writes for a card; stated by `Mapper.ReverseKeys`, `Mapper.ReverseEmail`, `Mapper.ReverseAddress`, `Mapper.ReverseTel` and `Mapper.ReverseOptional` |
| Mapper.AdrWrittenMeaning | abook.py:262-279 | `_conv_adr` writes only address fields, and each one exactly when its component is non-empty (the zip also not `"0"`), a street list joined with commas |
| Mapper.AdrFieldsMeaning | abook.py:262-279 | on a section, every other field is left alone, unwritten address fields keep their old values, and a zip of `"0"` appears only if the section already had it |
| Mapper.TelKey | abook.py:284-292 | a TEL property can only go to one of the four telephone fields |
| Mapper.TelKeyMeaning | abook.py:284-292 | no TYPE goes to `other`; a TYPE goes to `phone`, `workphone` or `mobile` exactly when it lower-cases to `home`, `work` or `cell`; any other TYPE goes nowhere |
| Mapper.TelKeyIgnoresCase | abook.py:287-291 | two TYPEs that lower-case alike go to the same field |
| Mapper.TelKeyOfOtherCases | abook.py:287-291 | `HOME`, `Work` and `CELL` go to `phone`, `workphone` and `mobile` |
| Mapper.TelFieldsSkipsUnknown | abook.py:284-292 | a TEL property of an unrecognised type leaves the section as it was |
| Mapper.TelFieldsLast | abook.py:281-292 | after `_conv_tel_list`, each field holds the value of the last TEL property that goes to it, so a later one overwrites an earlier one; with no such property the field is as it was |
| Mapper.TelKeysOfForwardTypes | abook.py:166-183 | the types `_to_vcard` writes (none, home, work, cell) are routed back to `other`, `phone`, `workphone` and `mobile` |
| Mapper.TelsOfLast | abook.py:166-183 | the last TEL of each telephone kind that `_to_vcard` emits carries that field's value, or there is none when the field is absent |
| Mapper.TelFieldsFrame | abook.py:281-292 | `_conv_tel_list` touches no field other than the four telephone fields |
| Mapper.ReverseKeys | abook.py:294-316 | `to_abook` starts from an empty section, writes only field names `_to_vcard` reads, and always writes `name` as FN |
| Mapper.ReverseEmail | abook.py:300-301 | `email` is written exactly when the card has EMAIL properties, as their values joined with commas |
| Mapper.ReverseAddress | abook.py:303-304 | without ADR no address field is written; with ADR each one is what `_conv_adr` writes |
| Mapper.ReverseTel | abook.py:306-307 | each telephone field of the written section is the last TEL property of its kind, or absent |
| Mapper.ReverseOptional | abook.py:309-316 | `nick`, `url` and `notes` are written exactly when the property is there and non-empty |
| Mapper.RoundTripEmail | abook.py:158-160 | an `email` field survives section to vCard to section unchanged, empty segments included |
| Mapper.RoundTripTel | abook.py:166-183 | each telephone field survives the round trip unchanged |
| Mapper.RoundTripAddress | abook.py:162-164 | non-empty street, extension, city and country survive; a zip survives unless it is `"0"`; a state survives only with another address field; empty ones are dropped |
| Mapper.RoundTripOptional | abook.py:185-192 | `nick`, `url` and `notes` survive when non-empty and are dropped when empty |
| Mapper.SectionRoundTrip | abook.py:150-196 | section to vCard to section: name, email and telephone fields come back unchanged, the other recognised fields come back unless empty (with the zip and state exceptions), and every other field is lost |
| Mapper.StateAloneIsDropped | abook.py:162-163 | a section whose only address field is `state` loses it in the round trip, because the component list names `country` twice and not `state` |
| Mapper.CardRoundTrip | abook.py:294-301 | vCard to section to vCard keeps FN, splits it again into N, keeps the EMAIL values when none holds a comma, and gives the UID of the target section |
| Store.Refresh | abook.py:47-54 | `_update`: a missing file reads as empty with the time kept; a newer file is read and its time recorded; an older or same-time file changes nothing; the recorded time never decreases |
| Store.RefreshIdempotent | abook.py:47-54 | a refresh right after a refresh against the same file changes nothing |
| Store.MaxIndex | abook.py:70 | the largest index is at least -1 |
| Store.MaxIndexMeaning | abook.py:70 | the largest index bounds every index and is one of them, or -1 when there are none; it fails exactly when some name is not an integer, with the error for the first such name |
| Store.NextIndex | abook.py:70 | `max([-1] + [int(k) ...]) + 1`; stated by `Store.NextIndexMeaning` |
| Store.NextIndexMeaning | abook.py:70 | the new index exists exactly when every section name is an integer; it is then above every existing index and one above the largest, so it never fills a gap; an empty book starts at 0 |
| Store.NewSectionIsFresh | abook.py:70 | the new section name is neither an existing section nor `format` |
| Store.AppendAdvancesIndex | abook.py:70-71 | after an append, the next append takes the following index |
| Store.NextIndexOfNumbered | abook.py:328-338 | a book numbered 0 to n-1 gives out index n next |
| Store.RemovingTopIndexFreesIt | abook.py:70-85 | removing the highest section of a book numbered 0 to n-1 makes the next append take the removed index again |
| Store.ItemOf | abook.py:246-250 | one element of `to_vobjects`; stated by `Store.ItemOfMeaning` |
| Store.ItemOfMeaning | abook.py:246-250 | one item succeeds exactly when the UID resolves to a section that has a name; it then carries the UID as asked, that section's card and its fingerprint; a missing section is a KeyError for its name, a missing name a KeyError for `name` |
| Store.CollectMeaning | abook.py:244-251 | building a list element by element succeeds exactly when every element does, then has one result per element in order, and otherwise fails with the first failing element's error |
| Store.ItemsOfMeaning | abook.py:233-251 | `to_vobjects` gives one item per UID in order, each that UID's item, or the error of the first UID that fails |
| Store.SectionCardOfEntry | abook.py:223 | the card of a book entry is `_to_vcard` of its fields over the format defaults, and it exists exactly when those fields have a name |
| Store.CardsOfMeaning | abook.py:220-223 | `to_vcards` succeeds exactly when every entry has a name, giving one card per entry in file order; its only error is the KeyError for `name` |
| Store.AllUids | abook.py:204 | one UID per entry, in file order |
| Store.AllUidsResolve | abook.py:204 | each listed UID resolves back to its section when the section name has no `@` |
| Store.EmptyNameWritesDefaults | abook.py:96-101 | a UID starting with `@` resolves to the empty section name, and replacing it writes the card's fields over the format section, so an entry without its own name now shows the card's name |
| Store.Abook.constructor | abook.py:35-45 | a new store starts from time 0 and an empty parse and then refreshes |
| Store.Abook.Update | abook.py:47-54 | the new cache is `Refresh` of the old one |
| Store.Abook.LastModified | abook.py:215-218 | refreshes, then returns the recorded time, which has not decreased |
| Store.Abook.GetUids | abook.py:198-204 | refreshes, then returns the UID of every entry in file order |
| Store.Abook.ToVcard | abook.py:150-196 | the card built property by property equals `CardOf`, which fails with a KeyError for a missing `name` |
| Store.Abook.EmailsFor | abook.py:158-160 | one EMAIL per comma-separated segment, in order, or none without an `email` field |
| Store.Abook.TelsFor | abook.py:166-183 | the TEL properties, added field by field, are `TelsOf` |
| Store.Abook.ToVcards | abook.py:220-223 | refreshes, then gives the cards of every entry in file order, or the first error |
| Store.Abook.CardsFor | abook.py:223 | the loop over the sections collects each section's card in order and stops at the first failure |
| Store.Abook.CardFor | abook.py:223 | the card of one section of the parse |
| Store.Abook.ToVobjects | abook.py:233-251 | refreshes, then gives the items for the UIDs asked for, or for every entry when none is asked for |
| Store.Abook.ItemsFor | abook.py:246-251 | the loop over the UIDs collects each UID's item in order and stops at the first failure |
| Store.Abook.ItemFor | abook.py:247-250 | one item: the section the UID resolves to, its card and its fingerprint, or the error |
| Store.Abook.ToVobjectEtag | abook.py:225-231 | the card and fingerprint of one UID, and it fails exactly when that UID's item fails |
| Store.Abook.ToVobject | abook.py:253-260 | refreshes, then gives the card of the section the UID resolves to, or a KeyError |
| Store.Abook.AppendVobject | abook.py:60-75 | re-reads the file and adds the card as a section one past the largest index, which is not yet taken; every other section and the defaults are unchanged; returns that section's UID, which resolves back to it; a non-integer section name aborts with nothing written |
| Store.Abook.Remove | abook.py:77-87 | re-reads the file and deletes exactly the section the UID resolves to; an unknown section is a KeyError and the default section cannot be removed, in both cases with nothing written |
| Store.Abook.ReplaceVobject | abook.py:89-105 | re-reads the file and overwrites or creates the section the UID resolves to; the returned UID comes from the cached parse, so it fails with a KeyError, after the write, when the cache lacks the section |
| Store.Abook.ConvAdr | abook.py:262-279 | the section after the address components are stored one by one equals `AdrFields` |
| Store.Abook.ConvTelList | abook.py:281-292 | the section after the loop over the TEL properties equals `TelFields` |
| Store.Abook.ToAbook | abook.py:294-316 | the book with the section emptied or created and filled from the card equals `SetSection` with `AbookFields`, and it stays well formed |
| Store.Abook.AbookFile | abook.py:328-338 | a new book whose defaults are the format fields, with the cards as sections 0 to n-1 in order, each holding `AbookFields` of its card |
| Store.Abook.NumberedBook | abook.py:337-338 | the `enumerate` loop gives section `str(i)` the fields of card i, in order |
| Store.Abook.WriteCard | abook.py:338 | a single `to_abook` call within that loop |
| Store.ReplaceAfterOwnAppend | abook.py:60-105 | on a store created over a missing file, appending a card and then replacing it by its UID, with no refresh in between, fails with a KeyError for section `0` |

Behaviour of the code worth noting, all of it modelled as written:

- A name without a space gets the whole name as the given name too, not an
  empty given name.
- Empty segments of the email field become empty EMAIL properties.
- A removed top index is handed out again by the next append.
- A state with no other address field produces no ADR, because the
  component list in `_to_vcard` names `country` twice and omits `state`.
- A postal code of `"0"` is never written back.
- `replace_vobject` takes the UID it returns from the stale cache.
- A UID that starts with `@` resolves to the empty section name. `replace_vobject` then adds an empty section `""`, and because the parser sends writes for that name to the default section, the card's fields land on the `format` section, which every entry inherits.
- A `format` UID resolves to the default section, whose keys every entry
  inherits.

## Left out

- File I/O (`open`, `isfile`, `getmtime`, `makedirs`): the file's state is an input and a write is the returned book. Target directories are not created.
- INI text parsing and writing are not modelled. This covers key lower-casing, value stripping, duplicate sections, and the `DEFAULT` section. A parse is a `Book` that is assumed well formed.
- `%` interpolation is not modelled. The parser applies it on every field read and write, so a value holding a lone `%` (a URL with `%20`, say) raises. Reading such a field (`entry[...]`, `dict(entry)`) raises InterpolationSyntaxError, so `to_vcards`, `to_vobjects`, `to_vobject_etag` and `to_vobject` abort. Writing it (`book[s][k] = v`) raises ValueError, so `append_vobject`, `replace_vobject` and `abook_file` abort before anything is written. The model treats every value as plain text and has none of these error paths.
- vCard text parsing and serialisation (`readComponents`, `serialize`, `to_vcf`) are not modelled. A card is the `Card` record, and `abook_file` takes the parsed cards.
- Photos (`_add_photo`, the photo branch of `to_abook`): `Card` has no PHOTO property, so no photo file is read or written.
- The photo branch of `to_abook` reads the PHOTO's TYPE parameter. It raises AttributeError when that parameter is missing, which `except OSError` does not catch. `append_vobject`, `replace_vobject` and `abook_file` then abort before writing anything. The model does not capture this failure.
- The lock: every operation is modelled as atomic and sequential. The race between a refresh and a write is not modelled.
- `sha1`: the fingerprint takes the digest as a function parameter, applied to the entry's fields.
- Field order within a section is not modelled, because `Section` is a map. The source hashes `str(dict(entry))`, whose text follows the order of the section's own keys and then the format keys. So two entries with equal fields but different order get different ETags in the source and equal ones in the model.
- `getfqdn`: the domain name is a constructor parameter.
- The modification time is an integer, where the source uses a float.
- For a file whose modification time is at most 0, the constructor's first `_update` does not read it. The store then keeps the parser created at abook.py:43, whose default section is `DEFAULT`, not `format`. The model's empty cache treats `format` as the default section, so a `format@…` UID reads the empty defaults instead of raising KeyError.
- `move_vobject`, `get_meta` and `get_filesnames` return constants and are not modelled.
- The command-line functions `abook2vcf` and `vcf2abook`, and `setup.py`, are not modelled.
- Text.ParseInt: accepts an optional sign followed by ASCII digits. It does not model the whitespace, underscores and non-ASCII digits that `int()` also accepts.
- Text.Lower: lower-cases ASCII letters only, not the full Unicode case mapping.
- Only the first ADR, NICKNAME, URL and NOTE property of a card is modelled, and only the first TYPE of a TEL.
- Only the street of an address may be a list; the other components are strings.
- A card without FN is not modelled, because `to_abook` raises on it before writing anything.
- Store.Abook.CardsFor, Store.Abook.ItemsFor and Store.Abook.NumberedBook take a ghost copy of their specification function as a parameter. It is a proof device with no counterpart in the source.
