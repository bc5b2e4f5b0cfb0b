# OpenStreetMap cleaning script, modelled in Dafny

This project models `openStreetMapCleaning.py`, a script that reads an
OpenStreetMap XML export, reports simple statistics about it, and reshapes
every `node` and `way` element into a nested document. The documents are
written out as one bracketed sequence of JSON records. The model covers the
logic between the XML parser and the database:

- **Key classifier** (`key_classifier.dfy`, module `KeyClassifier`): the
  patterns `lower`, `lower_colon`, `problemchars` and `colon` are written as
  predicates over characters. `Classify` is the first-match chain
  `lower` → `lower_colon` → `problemchars` → `other`. `ClassifyAsWritten` is
  the same chain with Python's `$`, which also matches just before a final
  line feed.
- **Parsed elements** (`elements.dfy`, module `Elements`): an element is its
  tag, its attribute map, the order in which its attributes come, and its
  children. `Iter` is `element.iter(tag)`, a pre-order walk that includes
  the element itself.
- **Aggregators** (`aggregators.dfy`, module `Aggregators`): `count_tags`,
  `types_of_text` and `unique_users` are loops over the sequence of parsed
  elements. Each is proved against a specification function: `TagTable`,
  `Tally` or `UserSet`.
- **Record shaper** (`shaper.dfy`, module `Shaper`): `get_info` builds its
  dictionary in three passes: the attributes, then the `tag` descendants,
  then the `nd` descendants.
  - Each turn of each loop is one step function (`AttrStep`, `TagStep`,
    `NdStep`).
  - Each pass is a fold of its step (`ApplyAttrs`, `ApplyTags`, `ApplyNds`).
  - `Shape` is the whole call.
  - The methods `GetInfo`, `CopyAttributes`, `ReadTags` and `ReadNds` are
    the loops, proved equal to those folds.
  - A Python exception is a `Failure`: `KeyError` for a missing `k`, `v` or
    `ref`; `TypeError` for item assignment into a string; `AttributeError`
    for `append` on a string.
- **What the document is** (`shape_properties.dfy`, module
  `ShapeProperties`):
  - `Expected` describes the document of a *clean* element piece by piece.
    An element is clean when every `k`, `v` and `ref` the script reads is
    present and nothing collides with a container the script then fills:
    no attribute named `created` or `pos`, no attribute or top-level tag
    named `address` where some `addr:` tag is, and none named `node_refs`
    where some `nd` is. A tag keyed `created` or `pos`, or an `address` or
    `node_refs` with nothing to collide with, is clean: it just sets a
    top-level string.
  - `ShapeIsExpected` proves that `get_info` builds exactly that document.
  - The lemmas after it spell out what the document holds: `created`, `pos`,
    the plain attributes, the top-level tags, `address` and `node_refs`.
- **Facts for every element** (`shape_invariants.dfy`, module
  `ShapeInvariants`):
  - No pass loses a key.
  - `type` is kept.
  - A returned document is empty exactly for the elements that are neither
    `node` nor `way`.
  - Each collision between a field and a container that makes the script
    raise is proved to raise: an attribute `created` before a CREATED
    attribute, an attribute `pos` before `lat` or `lon`, an attribute
    `address` with an `addr:` tag, an attribute `node_refs` with an `nd`, a
    tag keyed `address` before an `addr:` tag, and a tag keyed `node_refs`
    with an `nd`.
  - An attribute `created` after every CREATED attribute does not raise: its
    string replaces the `created` dictionary.
- **Export** (`exporter.dfy`, module `Exporter`):
  - `WriteInfo` is the loop of `write_info`: the text it writes and the
    counter it prints.
  - `Frame` is the framing as written: every record is followed by `,\n`.
  - `FrameJson` is the framing as intended.

## Model

| member | source | states |
|---|---|---|
| `KeyClassifier.Classify` | openStreetMapCleaning.py:119-126 | the result is `lower` iff the key is a run of `[a-z_]` (the empty key included), `lower_colon` iff it is such a run, one colon and such a run, `problemchars` iff it holds one of the twenty problem characters, `other` iff none of these holds; so each key lands in exactly one bucket |
| `KeyClassifier.ClassifyAsWritten` | openStreetMapCleaning.py:30-31 | the chain as written with Python's `$` agrees with `Classify` on every key that does not end in a line feed |
| `KeyClassifier.LowerRunIsClean` | openStreetMapCleaning.py:30-32 | a `[a-z_]*` key has no problem character and no colon, and is not a `lower_colon` key |
| `KeyClassifier.LowerColonKeyIsClean` | openStreetMapCleaning.py:31-32 | a `lower_colon` key has no problem character and is not a `lower` key |
| `KeyClassifier.CleanBuckets` | openStreetMapCleaning.py:119-122 | a key classified `lower` has no problem character and no colon; one classified `lower_colon` has no problem character and exactly one colon |
| `KeyClassifier.LineFeedSlipsThrough` | openStreetMapCleaning.py:30 | for every `[a-z_]*` run `s`, the chain as written puts `s + "\n"` in `lower` although it holds a problem character, and the corrected chain puts it in `problemchars` |
| `KeyClassifier.ColonLineFeedSlipsThrough` | openStreetMapCleaning.py:31 | for every `lower_colon` key `s`, the chain as written puts `s + "\n"` in `lower_colon` although it holds a problem character, and the corrected chain puts it in `problemchars` |
| `Elements.Iter` | openStreetMapCleaning.py:224 | every element `element.iter(t)` yields has tag `t` |
| `Aggregators.CountTags` | openStreetMapCleaning.py:48-68 | the dictionary after the pass is `TagTable`: each tag seen, mapped to its number of occurrences |
| `Aggregators.TagTableCounts` | openStreetMapCleaning.py:57-65 | the keys of the table are exactly the tags seen, and every count is at least 1 |
| `Aggregators.TagTableSum` | openStreetMapCleaning.py:57-65 | the counts add up to the number of elements scanned |
| `Aggregators.OccursIffSeen` | openStreetMapCleaning.py:61-65 | a tag has a positive count iff some element carries it |
| `Aggregators.TypesOfText` | openStreetMapCleaning.py:104-130 | raises `KeyError('k')` iff some `tag` element lacks `k`; otherwise returns the four counters, each the number of `tag` elements whose key falls in that bucket |
| `Aggregators.TallyTotal` | openStreetMapCleaning.py:109-126 | the four counters start at zero and add up to the number of `tag` elements |
| `Aggregators.UniqueUsers` | openStreetMapCleaning.py:148-163 | the set is exactly the `user` values of the elements that carry one |
| `Aggregators.UserSetIsValues` | openStreetMapCleaning.py:155-159 | the set of `user` values equals the set of the scanned `user` values in order |
| `Aggregators.UniqueUsersBound` | openStreetMapCleaning.py:148-163 | there are no more users than elements carrying `user`, and exactly as many iff no name repeats |
| `Shaper.GetInfo` | openStreetMapCleaning.py:181-258 | the result is `Shape(e)`: the empty dictionary for any tag but `node`/`way`, otherwise the three passes applied to `{"type": tag}`, or the exception the first failing step raises |
| `Shaper.CopyAttributes` | openStreetMapCleaning.py:190-220 | the attribute loop leaves the dictionary that the attribute pass `ApplyAttrs` gives, or raises its `TypeError` |
| `Shaper.ReadTags` | openStreetMapCleaning.py:224-238 | the `tag` loop gives what `ApplyTags` gives, including `KeyError` on a missing `k` or `v` |
| `Shaper.ReadNds` | openStreetMapCleaning.py:242-250 | the `nd` loop gives what `ApplyNds` gives, including `KeyError` on a missing `ref` |
| `Shaper.TagsPrefixFailure` | openStreetMapCleaning.py:224-238 | once a `tag` step raises, the whole pass raises the same exception |
| `ShapeProperties.AttrsPhase` | openStreetMapCleaning.py:190-220 | after the attributes: `type`, every plain attribute as a string, `created` with the CREATED attributes iff there is one, and `pos` with the `lat`/`lon` slots iff there is one |
| `ShapeProperties.TagsPhase` | openStreetMapCleaning.py:224-238 | the `tag` pass adds the last value of each top-level key and, iff some `addr:` tag exists, `address` with the last value of each stripped key; it needs `address` free only where an `addr:` tag is |
| `ShapeProperties.NdsPhase` | openStreetMapCleaning.py:242-250 | the `nd` pass adds `node_refs` with the refs in order, iff some `nd` exists; it needs `node_refs` free only where an `nd` is |
| `ShapeProperties.ShapeIsExpected` | openStreetMapCleaning.py:181-254 | on a clean `node` or `way`, `get_info` does not raise and returns the attribute part, overridden by the top-level tags, plus `address` and `node_refs` |
| `ShapeProperties.ShapeIgnoresAttrOrder` | openStreetMapCleaning.py:190-216 | on clean elements the order in which the attributes come does not change the document |
| `ShapeProperties.CreatedOnlyNested` | openStreetMapCleaning.py:194-238 | `created` is there iff a CREATED attribute or a tag keyed `created` is; without such a tag it holds exactly the CREATED attributes; a CREATED name at the top level comes from a tag |
| `ShapeProperties.PosSlots` | openStreetMapCleaning.py:204-238 | `pos` is there iff `lat`, `lon` or a tag keyed `pos` is; without such a tag `lat` fills slot 0 and `lon` slot 1, and a missing one stays None |
| `ShapeProperties.PlainAttrsCopied` | openStreetMapCleaning.py:218-220 | every other attribute is copied unchanged, unless a top-level tag has its key |
| `ShapeProperties.ShapeKeys` | openStreetMapCleaning.py:188-250 | the keys of the document are exactly `type`, the plain attributes, `created`/`pos` where filled, the top-level tag keys, `address` iff some `addr:` tag exists and `node_refs` iff some `nd` exists; any other tag adds no key |
| `ShapeProperties.AddressEntries` | openStreetMapCleaning.py:228-234 | `address` maps each `addr:` key, with the prefix cut off, to its last value, and has no other entry |
| `ShapeProperties.TopTagValue` | openStreetMapCleaning.py:236-238 | a top-level tag key holds the value of the last tag with that key, over any attribute of that name and over the `created` and `pos` containers |
| `ShapeProperties.LastWinsValue` | openStreetMapCleaning.py:238 | repeated assignment keeps, for each key, the value of its last pair |
| `ShapeProperties.NodeRefsInOrder` | openStreetMapCleaning.py:242-250 | with some `nd`, `node_refs` lists the `ref` of every `nd` in encounter order, one per `nd`; with none, it is there only as an attribute or a tag of that name |
| `ShapeInvariants.AttrsKeep` | openStreetMapCleaning.py:190-220 | the attribute loop removes no key, and changes no key other than an attribute name, `created` or `pos` |
| `ShapeInvariants.TagsKeep` | openStreetMapCleaning.py:224-238 | the `tag` loop removes no key, and changes no key other than `address` or a tag key |
| `ShapeInvariants.NdsKeep` | openStreetMapCleaning.py:242-250 | the `nd` loop removes no key and changes nothing but `node_refs` |
| `ShapeInvariants.TypeKept` | openStreetMapCleaning.py:186-188 | a returned `node`/`way` document has `type`, equal to the tag unless an attribute or a tag is named `type` |
| `ShapeInvariants.ShapeEmptyIffOther` | openStreetMapCleaning.py:183-258 | a returned document is empty iff the element is neither `node` nor `way` |
| `ShapeInvariants.AddressCollisionRaises` | openStreetMapCleaning.py:228-238 | a top-level tag keyed `address` before an `addr:` tag makes `get_info` raise |
| `ShapeInvariants.NodeRefsCollisionRaises` | openStreetMapCleaning.py:236-250 | a top-level tag keyed `node_refs` on an element with an `nd` makes `get_info` raise |
| `ShapeInvariants.AddressAttrCollisionRaises` | openStreetMapCleaning.py:218-234 | an attribute named `address` on an element with an `addr:` tag makes `get_info` raise |
| `ShapeInvariants.NodeRefsAttrCollisionRaises` | openStreetMapCleaning.py:218-250 | an attribute named `node_refs` on an element with an `nd` makes `get_info` raise |
| `ShapeInvariants.CreatedCollisionRaises` | openStreetMapCleaning.py:194-220 | an attribute named `created` before a CREATED attribute makes `get_info` raise |
| `ShapeInvariants.PosCollisionRaises` | openStreetMapCleaning.py:204-220 | an attribute named `pos` before `lat` or `lon` makes `get_info` raise |
| `ShapeInvariants.CreatedOverwrittenByAttr` | openStreetMapCleaning.py:190-254 | in the other order, on an element otherwise clean, `get_info` does not raise, and its `created` is the attribute's string unless a tag is keyed `created` |
| `ShapeInvariants.AttrsCreatedLast` | openStreetMapCleaning.py:190-220 | with `created` after every CREATED attribute, the attribute pass gives the document of the other attributes with that string in place of the dictionary |
| `Exporter.WriteInfo` | openStreetMapCleaning.py:279-305 | succeeds iff no element makes `get_info` raise; then the text is `[`, each non-empty document serialized and followed by `,\n` in stream order, then `]`, and the counter is the number of `node`/`way` elements; otherwise the first exception comes back with the text written so far and no `]` |
| `Exporter.RecordsCount` | openStreetMapCleaning.py:290-292 | the counter goes up once per `node` and `way` element, because exactly those give a non-empty document |
| `Exporter.FrameDangles` | openStreetMapCleaning.py:283-302 | with at least one record, the text written ends in `,\n]` |
| `Exporter.OneRecordDangles` | openStreetMapCleaning.py:296-302 | one record `{}` is written as `[{},\n]`, where a JSON array is `[{}]` |
| `Exporter.TerminatedIsJoinedPlusSeparator` | openStreetMapCleaning.py:283-302 | the text written is the JSON array of the records with one extra `,\n` before `]`, and the two agree when there is no record |
| `Exporter.FrameJsonClosesOnRecord` | openStreetMapCleaning.py:283-302 | in the corrected framing, when every record ends in `}`, `]` follows the last record and no separator dangles |

## Left out

- XML parsing (`ET.iterparse`) is not modelled. The aggregators and
  `WriteInfo` take the sequence of elements the parser yields. The
  attribute order of an element is a field of the element, and
  `AttrOrderOk` says it lists each attribute name exactly once.
- `json.dumps` is a function parameter of `WriteInfo`. It receives the
  `pretty` flag, which stands for the two calls with and without
  `indent=2`. A document is a map, so the key order of the Python dict,
  which shows in the serialized text, is not modelled.
- File handling is not modelled: the output name `<filename>.json`,
  `codecs.open`, and what is left on disk after an exception. `WriteInfo`
  returns the text written and the counter. The `print` of the counter is
  left out.
- `store_info` is not part of this model: it is network I/O to MongoDB,
  and the `json.loads` that reads the output back.
- The `__main__` driver, its wall-clock timing and its hard-coded paths are
  not part of this model.
- The regular-expression engine is not modelled. Each pattern is a
  predicate over characters, including the behaviour of `$` at a final
  line feed.
- Aggregators.TypesOfText: counts with the corrected `Classify`. A key
  that ends in a line feed goes to `problemchars`, where the script as
  written counts it as `lower` or `lower_colon` (see Findings).
- Elements.Iter: its contract states only that every element it yields has
  the requested tag. The pre-order walk is its definition.
- The document lemmas of `ShapeProperties` assume a clean element. The
  collisions excluded there that raise each have a lemma proving they
  raise. Two that do not raise get no full description of the document:
  an attribute `pos` after `lat` and `lon` (its string replaces the pair),
  and a tag keyed `address` after every `addr:` tag (its string replaces
  the `address` dictionary). `TopTagValue` and `CreatedOverwrittenByAttr`
  describe the replacements by a tag keyed `created` or `pos` and by a
  later `created` attribute.

## Findings

| source | as written | input that shows it | evidently intended | confidence | as-written member | corrected member |
|---|---|---|---|---|---|---|
| openStreetMapCleaning.py:30-31 | `lower` and `lower_colon` end in `$`, which in Python also matches just before a final line feed | the key `"abc\n"` (any `[a-z_]*` run followed by a line feed, `"\n"` included) is counted as `lower`, although the line feed is one of the problem characters (`LineFeedSlipsThrough`); likewise `"a:b\n"` is counted as `lower_colon` (`ColonLineFeedSlipsThrough`) | the patterns describe the whole key, so such a key counts as `problemchars` | medium; not executed | `KeyClassifier.ClassifyAsWritten` | `KeyClassifier.Classify` |
| openStreetMapCleaning.py:296-302 | every record is followed by `,\n`, the last one included, and then `]` is written | a file with one `node` gives `[{...},\n]` (`FrameDangles`, `OneRecordDangles`), which is not a JSON array under section 5 of RFC 8259; the script's own `json.loads` at openStreetMapCleaning.py:329 rejects it | a separator between consecutive records only | high; not executed | `Exporter.WriteInfo` | `Exporter.FrameJson` |

`WriteInfo` keeps the framing as written, because the text of the output
file is what the loop produces. `FrameJson` is the corrected framing.
`TerminatedIsJoinedPlusSeparator` relates the two: the written text is the
corrected one with a separator inserted before the closing bracket.
