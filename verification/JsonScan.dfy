/**
 The streaming reader of .json transcripts. It never holds the document: a first pass over the
 tokens remembers which array to read and the session fields, a second pass finds that array again
 and decodes its elements. The functions here are those two passes on a token sequence; module
 JsonReader has them as methods on a decoder. On the tokens of a document they do what looking the
 names up in the decoded document does, repeated names included (section 4 of RFC 8259 leaves them
 open; encoding/json lets the last one count).
 */
module JsonScan {
  import opened Common
  import opened Text
  import opened Json
  import opened ChatTranscript

  datatype Token =
    | OpenObject | CloseObject | OpenArray | CloseArray
    | TextToken(s: string) | NumberToken(text: string) | BoolToken(b: bool) | NullToken

  // ----- documents as tokens

  function Tokens(v: Json): (ts: seq<Token>)
    ensures ts != []
  {
    match v
    case Str(s) => [TextToken(s)]
    case Array(elems) => [OpenArray] + ElemTokens(elems) + [CloseArray]
    case Object(fields) => [OpenObject] + FieldTokens(fields) + [CloseObject]
    case Number(text) => [NumberToken(text)]
    case Bool(b) => [BoolToken(b)]
    case Null => [NullToken]
  }

  function ElemTokens(elems: seq<Json>): seq<Token> {
    if elems == [] then [] else Tokens(elems[0]) + ElemTokens(elems[1..])
  }

  function FieldTokens(fields: seq<Field>): seq<Token> {
    if fields == [] then []
    else [TextToken(fields[0].name)] + Tokens(fields[0].value) + FieldTokens(fields[1..])
  }

  // ----- the decoder

  /** More: there is a token and it does not close anything. */
  predicate More(ts: seq<Token>) { ts != [] && !ts[0].CloseArray? && !ts[0].CloseObject? }

  function Consume(ts: seq<Token>, want: Token): (r: Option<seq<Token>>)
    ensures r.Some? ==> |r.value| < |ts|
  {
    if ts != [] && ts[0] == want then Some(ts[1..]) else None
  }

  /** skipJSONValue: what is left after one value. */
  function SkipValue(ts: seq<Token>): (r: Option<seq<Token>>)
    ensures r.Some? ==> |r.value| < |ts|
    decreases |ts|, 0
  {
    if !More(ts) then None
    else match ts[0]
      case OpenObject => SkipFields(ts[1..])
      case OpenArray => SkipElems(ts[1..])
      case _ => Some(ts[1..])
  }

  function SkipFields(ts: seq<Token>): (r: Option<seq<Token>>)
    ensures r.Some? ==> |r.value| < |ts|
    decreases |ts|, 1
  {
    if !More(ts) then Consume(ts, CloseObject)
    else if !ts[0].TextToken? then None
    else
      var rest := SkipValue(ts[1..]);
      if rest.None? then None else SkipFields(rest.value)
  }

  function SkipElems(ts: seq<Token>): (r: Option<seq<Token>>)
    ensures r.Some? ==> |r.value| < |ts|
    decreases |ts|, 1
  {
    if !More(ts) then Consume(ts, CloseArray)
    else
      var rest := SkipValue(ts);
      if rest.None? then None else SkipElems(rest.value)
  }

  datatype Decoded<T> = Decoded(value: T, rest: seq<Token>)

  /** Decode: one value and what is left. */
  function DecodeValue(ts: seq<Token>): (r: Option<Decoded<Json>>)
    ensures r.Some? ==> |r.value.rest| < |ts|
    decreases |ts|, 0
  {
    if !More(ts) then None
    else match ts[0]
      case OpenObject =>
        var r := DecodeFields(ts[1..]);
        if r.None? then None else Some(Decoded(Object(r.value.value), r.value.rest))
      case OpenArray =>
        var r := DecodeElems(ts[1..]);
        if r.None? then None else Some(Decoded(Array(r.value.value), r.value.rest))
      case TextToken(s) => Some(Decoded(Str(s), ts[1..]))
      case NumberToken(text) => Some(Decoded(Number(text), ts[1..]))
      case BoolToken(b) => Some(Decoded(Bool(b), ts[1..]))
      case NullToken => Some(Decoded(Null, ts[1..]))
  }

  function DecodeFields(ts: seq<Token>): (r: Option<Decoded<seq<Field>>>)
    ensures r.Some? ==> |r.value.rest| < |ts|
    decreases |ts|, 1
  {
    if !More(ts) then
      var r := Consume(ts, CloseObject);
      if r.None? then None else Some(Decoded([], r.value))
    else if !ts[0].TextToken? then None
    else
      var v := DecodeValue(ts[1..]);
      if v.None? then None
      else
        var r := DecodeFields(v.value.rest);
        if r.None? then None else Some(Decoded([Field(ts[0].s, v.value.value)] + r.value.value, r.value.rest))
  }

  function DecodeElems(ts: seq<Token>): (r: Option<Decoded<seq<Json>>>)
    ensures r.Some? ==> |r.value.rest| < |ts|
    decreases |ts|, 1
  {
    if !More(ts) then
      var r := Consume(ts, CloseArray);
      if r.None? then None else Some(Decoded([], r.value))
    else
      var v := DecodeValue(ts);
      if v.None? then None
      else
        var r := DecodeElems(v.value.rest);
        if r.None? then None else Some(Decoded([v.value.value] + r.value.value, r.value.rest))
  }

  // ----- the first pass

  const ARRAY_KEYS: seq<string> := ["messages", "items", "transcript"]

  const SESSION_KEYS: set<string> :=
    {"session_id", "conversation_id", "chat_id", "id", "cwd", "title", "timestamp", "created_at", "started_at"}

  /** The names that the first pass looks for. */
  datatype Names = Names(arrays: set<string>, fields: set<string>)

  const NAMES := Names((set key | key in ARRAY_KEYS), SESSION_KEYS)

  datatype ArrayScan = ArrayScan(occurrence: nat, isArray: bool)

  datatype Scan = Scan(fields: map<string, string>, arrays: map<string, ArrayScan>)

  const NO_SCAN := Scan(map[], map[])

  function ArrayAt(scan: Scan, key: string): ArrayScan {
    if key in scan.arrays then scan.arrays[key] else ArrayScan(0, false)
  }

  function NoteArray(scan: Scan, key: string, isArray: bool): Scan {
    scan.(arrays := scan.arrays[key := ArrayScan(ArrayAt(scan, key).occurrence + 1, isArray)])
  }

  /** A string with something in it is kept; anything else forgets an earlier one. */
  function NoteField(scan: Scan, key: string, first: Token): Scan {
    if first.TextToken? && Trim(first.s) != "" then scan.(fields := scan.fields[key := Trim(first.s)])
    else scan.(fields := scan.fields - {key})
  }

  /** One field of the document, seen only by the first token of its value. */
  function NoteToken(names: Names, scan: Scan, key: string, first: Token): Scan {
    if key in names.arrays then NoteArray(scan, key, first.OpenArray?)
    else if key in names.fields then NoteField(scan, key, first)
    else scan
  }

  function ScanFields(names: Names, ts: seq<Token>, scan: Scan): Option<Scan>
    decreases |ts|
  {
    if !More(ts) then if Consume(ts, CloseObject).Some? then Some(scan) else None
    else if !ts[0].TextToken? then None
    else
      var rest := SkipValue(ts[1..]);
      if rest.None? then None else ScanFields(names, rest.value, NoteToken(names, scan, ts[0].s, ts[1]))
  }

  function ScanTranscript(ts: seq<Token>): Option<Scan> {
    if Consume(ts, OpenObject).None? then None else ScanFields(NAMES, ts[1..], NO_SCAN)
  }

  function SelectedArray(scan: Scan, keys: seq<string>): Option<string> {
    if keys == [] then None
    else if ArrayAt(scan, keys[0]).isArray then Some(keys[0])
    else SelectedArray(scan, keys[1..])
  }

  // ----- the second pass

  /** Every element takes an ordinal; only objects become items. */
  function DecodeItems(ts: seq<Token>, ordinal: nat): Option<seq<Item>>
    decreases |ts|
  {
    if !More(ts) then if Consume(ts, CloseArray).Some? then Some([]) else None
    else
      var v := DecodeValue(ts);
      if v.None? then None
      else
        var rest := DecodeItems(v.value.rest, ordinal + 1);
        if rest.None? then None
        else if v.value.value.Object? then Some([Item(ordinal, AsMap(v.value.value.fields))] + rest.value)
        else rest
  }

  /** The items of the occurrence with the given number of the given name. */
  function FindArray(ts: seq<Token>, key: string, occurrence: nat): Option<seq<Item>>
    decreases |ts|
  {
    if !More(ts) || !ts[0].TextToken? then None
    else if ts[0].s == key && occurrence == 1 then
      if Consume(ts[1..], OpenArray).None? then None else DecodeItems(ts[2..], 0)
    else
      var rest := SkipValue(ts[1..]);
      if rest.None? then None
      else FindArray(rest.value, key, if ts[0].s == key && occurrence > 0 then occurrence - 1 else occurrence)
  }

  datatype Transcript = Transcript(fields: map<string, string>, items: seq<Item>)

  /** parseJSONTranscript up to the empty transcript check: both passes. */
  function ParseTranscript(ts: seq<Token>): Option<Transcript> {
    var scan := ScanTranscript(ts);
    if scan.None? then None
    else
      var key := SelectedArray(scan.value, ARRAY_KEYS);
      if key.None? then None
      else
        var items := FindArray(ts[1..], key.value, ArrayAt(scan.value, key.value).occurrence);
        if items.None? then None else Some(Transcript(scan.value.fields, items.value))
  }

  // ----- the same by looking things up in the document

  function ItemsOfElems(elems: seq<Json>, ordinal: nat): seq<Item>
    decreases elems
  {
    if elems == [] then []
    else
      (if elems[0].Object? then [Item(ordinal, AsMap(elems[0].fields))] else [])
      + ItemsOfElems(elems[1..], ordinal + 1)
  }

  /** The first of the keys whose value in the document is an array. */
  function FirstArray(doc: Payload, keys: seq<string>): Option<string> {
    if keys == [] then None
    else if keys[0] in doc && doc[keys[0]].Array? then Some(keys[0])
    else FirstArray(doc, keys[1..])
  }

  // ----- tokens and trees

  lemma {:induction false} SkipTree(v: Json, rest: seq<Token>)
    ensures SkipValue(Tokens(v) + rest) == Some(rest)
    decreases v, 0
  {
    var ts := Tokens(v) + rest;
    match v
    case Array(elems) =>
      assert ts == [OpenArray] + (ElemTokens(elems) + ([CloseArray] + rest));
      assert ts[1..] == ElemTokens(elems) + ([CloseArray] + rest);
      SkipElemTrees(elems, rest);
    case Object(fields) =>
      assert ts == [OpenObject] + (FieldTokens(fields) + ([CloseObject] + rest));
      assert ts[1..] == FieldTokens(fields) + ([CloseObject] + rest);
      SkipFieldTrees(fields, rest);
    case Str(s) => assert ts[1..] == rest;
    case _ => assert ts[1..] == rest;
  }

  lemma {:induction false} SkipElemTrees(elems: seq<Json>, rest: seq<Token>)
    ensures SkipElems(ElemTokens(elems) + ([CloseArray] + rest)) == Some(rest)
    decreases elems, 1
  {
    var end := [CloseArray] + rest;
    if elems == [] {
      assert ElemTokens(elems) + end == end && end[1..] == rest;
    } else {
      assert ElemTokens(elems) + end == Tokens(elems[0]) + (ElemTokens(elems[1..]) + end);
      TreeOpens(elems[0]);
      SkipTree(elems[0], ElemTokens(elems[1..]) + end);
      SkipElemTrees(elems[1..], rest);
    }
  }

  lemma {:induction false} HeadOfThree(t: Token, a: seq<Token>, b: seq<Token>, end: seq<Token>)
    requires a != []
    ensures var ts := ([t] + a + b) + end; ts[0] == t && ts[1..] == a + (b + end) && ts[1] == a[0]
  {
    assert ([t] + a + b) + end == [t] + (a + (b + end));
  }

  /** The tokens of fields, at the first one. */
  lemma {:induction false} FieldTokensSplit(fields: seq<Field>, end: seq<Token>)
    requires fields != []
    ensures var ts := FieldTokens(fields) + end;
      && |ts| > 1 && More(ts) && ts[0] == TextToken(fields[0].name)
      && ts[1..] == Tokens(fields[0].value) + (FieldTokens(fields[1..]) + end)
      && ts[1] == Tokens(fields[0].value)[0]
  {
    HeadOfThree(TextToken(fields[0].name), Tokens(fields[0].value), FieldTokens(fields[1..]), end);
  }

  lemma {:induction false} SkipFieldTrees(fields: seq<Field>, rest: seq<Token>)
    ensures SkipFields(FieldTokens(fields) + ([CloseObject] + rest)) == Some(rest)
    decreases fields, 1
  {
    var end := [CloseObject] + rest;
    if fields == [] {
      assert FieldTokens(fields) + end == end && end[1..] == rest;
    } else {
      FieldTokensSplit(fields, end);
      SkipTree(fields[0].value, FieldTokens(fields[1..]) + end);
      SkipFieldTrees(fields[1..], rest);
    }
  }

  lemma {:induction false} TreeOpens(v: Json)
    ensures !Tokens(v)[0].CloseArray? && !Tokens(v)[0].CloseObject?
    ensures Tokens(v)[0].OpenArray? <==> v.Array?
    ensures Tokens(v)[0].OpenObject? <==> v.Object?
    ensures Tokens(v)[0].TextToken? <==> v.Str?
    ensures v.Str? ==> Tokens(v)[0].s == v.s
  {}

  lemma {:induction false} DecodeTree(v: Json, rest: seq<Token>)
    ensures DecodeValue(Tokens(v) + rest) == Some(Decoded(v, rest))
    decreases v, 0
  {
    var ts := Tokens(v) + rest;
    match v
    case Array(elems) =>
      assert ts == [OpenArray] + (ElemTokens(elems) + ([CloseArray] + rest));
      assert ts[1..] == ElemTokens(elems) + ([CloseArray] + rest);
      DecodeElemTrees(elems, rest);
    case Object(fields) =>
      assert ts == [OpenObject] + (FieldTokens(fields) + ([CloseObject] + rest));
      assert ts[1..] == FieldTokens(fields) + ([CloseObject] + rest);
      DecodeFieldTrees(fields, rest);
    case Str(s) => assert ts[1..] == rest;
    case _ => assert ts[1..] == rest;
  }

  lemma {:induction false} DecodeElemTrees(elems: seq<Json>, rest: seq<Token>)
    ensures DecodeElems(ElemTokens(elems) + ([CloseArray] + rest)) == Some(Decoded(elems, rest))
    decreases elems, 1
  {
    var end := [CloseArray] + rest;
    if elems == [] {
      assert ElemTokens(elems) + end == end && end[1..] == rest;
    } else {
      assert ElemTokens(elems) + end == Tokens(elems[0]) + (ElemTokens(elems[1..]) + end);
      TreeOpens(elems[0]);
      DecodeTree(elems[0], ElemTokens(elems[1..]) + end);
      DecodeElemTrees(elems[1..], rest);
      assert [elems[0]] + elems[1..] == elems;
    }
  }

  lemma {:induction false} DecodeFieldTrees(fields: seq<Field>, rest: seq<Token>)
    ensures DecodeFields(FieldTokens(fields) + ([CloseObject] + rest)) == Some(Decoded(fields, rest))
    decreases fields, 1
  {
    var end := [CloseObject] + rest;
    if fields == [] {
      assert FieldTokens(fields) + end == end && end[1..] == rest;
    } else {
      FieldTokensSplit(fields, end);
      DecodeTree(fields[0].value, FieldTokens(fields[1..]) + end);
      DecodeFieldTrees(fields[1..], rest);
      assert [Field(fields[0].name, fields[0].value)] + fields[1..] == fields;
    }
  }

  // ----- the first pass sees what the document holds

  /** What the first pass has noted is what the fields so far decode to. */
  ghost predicate Notes(names: Names, scan: Scan, doc: Payload, seen: seq<Field>) {
    && (forall key :: key in names.fields ==> At(scan.fields, key) == StringField(doc, key))
    && (forall key :: key in scan.fields ==> key in names.fields)
    && (forall key :: key in names.arrays ==>
          && ArrayAt(scan, key).occurrence == Count(seen, key)
          && (ArrayAt(scan, key).isArray <==> key in doc && doc[key].Array?))
  }

  function Count(fields: seq<Field>, key: string): nat {
    if fields == [] then 0
    else
      var n := |fields| - 1;
      Count(fields[..n], key) + (if fields[n].name == key then 1 else 0)
  }

  lemma {:induction false} AsMapMore(seen: seq<Field>, f: Field)
    ensures AsMap(seen + [f]) == AsMap(seen)[f.name := f.value]
    ensures forall key :: Count(seen + [f], key) == Count(seen, key) + (if f.name == key then 1 else 0)
  {
    assert (seen + [f])[..|seen|] == seen;
  }

  /** The first token tells all that the first pass needs to know of a value. */
  ghost predicate Heralds(first: Token, v: Json) {
    && (first.OpenArray? <==> v.Array?)
    && (first.TextToken? <==> v.Str?)
    && (v.Str? ==> first.s == v.s)
  }

  lemma {:induction false} NoteArrayKeeps(
    names: Names, scan: Scan, doc: Payload, seen: seq<Field>, name: string, first: Token, v: Json,
        seen': seq<Field>, key: string)
    requires names.arrays !! names.fields && Notes(names, scan, doc, seen) && Heralds(first, v)
    requires Count(seen', key) == Count(seen, key) + (if name == key then 1 else 0) && key in names.arrays
    ensures var next := NoteToken(names, scan, name, first);
      && ArrayAt(next, key).occurrence == Count(seen', key)
      && (ArrayAt(next, key).isArray <==> key in doc[name := v] && doc[name := v][key].Array?)
  {}

  lemma {:induction false} NoteFieldKeeps(
    names: Names, scan: Scan, doc: Payload, seen: seq<Field>, name: string, first: Token, v: Json, key: string)
    requires names.arrays !! names.fields && Notes(names, scan, doc, seen) && Heralds(first, v) && key in names.fields
    ensures At(NoteToken(names, scan, name, first).fields, key) == StringField(doc[name := v], key)
  {}

  lemma {:induction false} NoteKeeps(
    names: Names, scan: Scan, doc: Payload, seen: seq<Field>, name: string, first: Token, v: Json, seen': seq<Field>)
    requires names.arrays !! names.fields && Notes(names, scan, doc, seen) && Heralds(first, v)
    requires forall key :: Count(seen', key) == Count(seen, key) + (if name == key then 1 else 0)
    ensures Notes(names, NoteToken(names, scan, name, first), doc[name := v], seen')
  {
    var next := NoteToken(names, scan, name, first);
    forall key | key in names.fields ensures At(next.fields, key) == StringField(doc[name := v], key) {
      NoteFieldKeeps(names, scan, doc, seen, name, first, v, key);
    }
    forall key | key in names.arrays
      ensures ArrayAt(next, key).occurrence == Count(seen', key)
      ensures ArrayAt(next, key).isArray <==> key in doc[name := v] && doc[name := v][key].Array?
    {
      NoteArrayKeeps(names, scan, doc, seen, name, first, v, seen', key);
    }
  }

  /** The first pass over one field. */
  lemma {:induction false} ScanOneTree(names: Names, fields: seq<Field>, end: seq<Token>, scan: Scan)
    requires fields != []
    ensures ScanFields(names, FieldTokens(fields) + end, scan) ==
      ScanFields(names, FieldTokens(fields[1..]) + end,
                 NoteToken(names, scan, fields[0].name, Tokens(fields[0].value)[0]))
  {
    var f := fields[0];
    FieldTokensSplit(fields, end);
    SkipTree(f.value, FieldTokens(fields[1..]) + end);
    TreeOpens(f.value);
  }

  lemma {:induction false} NoteNext(names: Names, scan: Scan, seen: seq<Field>, f: Field)
    requires names.arrays !! names.fields && Notes(names, scan, AsMap(seen), seen)
    ensures Tokens(f.value) != []
    ensures Notes(names, NoteToken(names, scan, f.name, Tokens(f.value)[0]), AsMap(seen + [f]), seen + [f])
  {
    AsMapMore(seen, f);
    TreeOpens(f.value);
    NoteKeeps(names, scan, AsMap(seen), seen, f.name, Tokens(f.value)[0], f.value, seen + [f]);
  }

  /** The first pass over the fields that are left of all of them. */
  lemma {:induction false} ScanRest(
    names: Names, all: seq<Field>, seen: seq<Field>, fields: seq<Field>, end: seq<Token>, scan: Scan)
    requires names.arrays !! names.fields && Notes(names, scan, AsMap(seen), seen)
    requires all == seen + fields && end != [] && end[0] == CloseObject
    ensures var r := ScanFields(names, FieldTokens(fields) + end, scan);
      r.Some? && Notes(names, r.value, AsMap(all), all)
    decreases |fields|
  {
    if fields == [] {
      assert FieldTokens(fields) + end == end && all == seen;
    } else {
      var f := fields[0];
      ScanOneTree(names, fields, end, scan);
      NoteNext(names, scan, seen, f);
      assert all == (seen + [f]) + fields[1..];
      ScanRest(names, all, seen + [f], fields[1..], end, NoteToken(names, scan, f.name, Tokens(f.value)[0]));
    }
  }

  lemma {:induction false} ScanTrees(names: Names, fields: seq<Field>, rest: seq<Token>, scan: Scan)
    requires names.arrays !! names.fields && Notes(names, scan, AsMap([]), [])
    ensures var r := ScanFields(names, FieldTokens(fields) + ([CloseObject] + rest), scan);
      r.Some? && Notes(names, r.value, AsMap(fields), fields)
  {
    assert [] + fields == fields;
    ScanRest(names, fields, [], fields, [CloseObject] + rest, scan);
  }

  lemma {:induction false} SelectsFirstArray(scan: Scan, fields: seq<Field>, keys: seq<string>)
    requires Notes(NAMES, scan, AsMap(fields), fields) && forall key :: key in keys ==> key in NAMES.arrays
    ensures SelectedArray(scan, keys) == FirstArray(AsMap(fields), keys)
  {
    if keys != [] {
      SelectsFirstArray(scan, fields, keys[1..]);
    }
  }

  // ----- the second pass finds the last occurrence

  lemma {:induction false} DecodeItemTrees(elems: seq<Json>, rest: seq<Token>, ordinal: nat)
    ensures DecodeItems(ElemTokens(elems) + ([CloseArray] + rest), ordinal) == Some(ItemsOfElems(elems, ordinal))
    decreases |elems|
  {
    var end := [CloseArray] + rest;
    if elems == [] {
      assert ElemTokens(elems) + end == end;
    } else {
      assert ElemTokens(elems) + end == Tokens(elems[0]) + (ElemTokens(elems[1..]) + end);
      TreeOpens(elems[0]);
      DecodeTree(elems[0], ElemTokens(elems[1..]) + end);
      DecodeItemTrees(elems[1..], rest, ordinal + 1);
      if !elems[0].Object? {
        assert [] + ItemsOfElems(elems[1..], ordinal + 1) == ItemsOfElems(elems[1..], ordinal + 1);
      }
    }
  }

  /** Occurrences counted from the front. */
  function Occurs(fields: seq<Field>, key: string): nat {
    if fields == [] then 0 else (if fields[0].name == key then 1 else 0) + Occurs(fields[1..], key)
  }

  lemma {:induction false} OccursIsCount(fields: seq<Field>, key: string)
    ensures Occurs(fields, key) == Count(fields, key)
  {
    if fields != [] {
      var n := |fields| - 1;
      OccursIsCount(fields[..n], key);
      OccursMore(fields[..n], fields[n], key);
      assert fields[..n] + [fields[n]] == fields;
    }
  }

  lemma {:induction false} OccursMore(fields: seq<Field>, f: Field, key: string)
    ensures Occurs(fields + [f], key) == Occurs(fields, key) + (if f.name == key then 1 else 0)
  {
    if fields == [] {
      assert fields + [f] == [f];
      assert [f][1..] == [];
    } else {
      assert (fields + [f])[1..] == fields[1..] + [f];
      OccursMore(fields[1..], f, key);
    }
  }

  lemma {:induction false} AsMapAfter(first: Field, rest: seq<Field>, key: string)
    ensures At(AsMap([first] + rest), key) ==
      if Occurs(rest, key) > 0 then At(AsMap(rest), key) else if first.name == key then Some(first.value) else None
    decreases |rest|
  {
    if rest == [] {
      assert [first] + rest == [first] && [first][..0] == [];
    } else {
      var n := |rest| - 1;
      AsMapAfter(first, rest[..n], key);
      OccursMore(rest[..n], rest[n], key);
      AsMapMore(rest[..n], rest[n]);
      AsMapMore([first] + rest[..n], rest[n]);
      assert rest[..n] + [rest[n]] == rest && [first] + rest[..n] + [rest[n]] == [first] + rest;
    }
  }

  /** The last occurrence of a name decides its value in the decoded object. */
  lemma {:induction false} AsMapOfFront(fields: seq<Field>, key: string)
    requires fields != []
    ensures At(AsMap(fields), key) ==
      if Occurs(fields[1..], key) > 0 then At(AsMap(fields[1..]), key)
      else if fields[0].name == key then Some(fields[0].value) else None
  {
    AsMapAfter(fields[0], fields[1..], key);
    assert [fields[0]] + fields[1..] == fields;
  }

  lemma {:induction false} FindsLast(fields: seq<Field>, rest: seq<Token>, key: string)
    requires Occurs(fields, key) > 0
    requires key in AsMap(fields) && AsMap(fields)[key].Array?
    ensures FindArray(FieldTokens(fields) + ([CloseObject] + rest), key, Occurs(fields, key))
         == Some(ItemsOfElems(AsMap(fields)[key].elems, 0))
    decreases |fields|
  {
    var end := [CloseObject] + rest;
    var ts := FieldTokens(fields) + end;
    FieldTokensSplit(fields, end);
    AsMapOfFront(fields, key);
    if Occurs(fields[1..], key) > 0 {
      SkipTree(fields[0].value, FieldTokens(fields[1..]) + end);
      FindsLast(fields[1..], rest, key);
    } else {
      var elems := fields[0].value.elems;
      var after := FieldTokens(fields[1..]) + end;
      assert ts[1..] == [OpenArray] + (ElemTokens(elems) + ([CloseArray] + after));
      assert ts[2..] == ts[1..][1..] == ElemTokens(elems) + ([CloseArray] + after);
      DecodeItemTrees(elems, after, 0);
    }
  }

  lemma {:induction false} FirstArrayHolds(doc: Payload, keys: seq<string>)
    ensures var key := FirstArray(doc, keys);
      key.Some? ==> key.value in keys && key.value in doc && doc[key.value].Array?
  {
    if keys != [] {
      FirstArrayHolds(doc, keys[1..]);
    }
  }

  lemma {:induction false} CountedIsPresent(fields: seq<Field>, key: string)
    ensures Count(fields, key) > 0 <==> key in AsMap(fields)
  {
    if fields != [] {
      CountedIsPresent(fields[..|fields| - 1], key);
    }
  }

  lemma {:induction false} ScanRefinesObject(v: Json, rest: seq<Token>)
    requires v.Object?
    ensures var r, doc := ParseTranscript(Tokens(v) + rest), AsMap(v.fields);
      match FirstArray(doc, ARRAY_KEYS)
      case None => r.None?
      case Some(key) =>
        && r.Some?
        && key in doc && doc[key].Array? && r.value.items == ItemsOfElems(doc[key].elems, 0)
        && (forall k :: k in SESSION_KEYS ==> At(r.value.fields, k) == StringField(doc, k))
        && (forall k :: k in r.value.fields ==> k in SESSION_KEYS)
  {
    var ts, end := Tokens(v) + rest, [CloseObject] + rest;
    assert ts == [OpenObject] + (FieldTokens(v.fields) + end);
    assert ts[1..] == FieldTokens(v.fields) + end;
    ScanTrees(NAMES, v.fields, rest, NO_SCAN);
    var scan := ScanTranscript(ts).value;
    SelectsFirstArray(scan, v.fields, ARRAY_KEYS);
    var key := FirstArray(AsMap(v.fields), ARRAY_KEYS);
    FirstArrayHolds(AsMap(v.fields), ARRAY_KEYS);
    if key.Some? {
      OccursIsCount(v.fields, key.value);
      CountedIsPresent(v.fields, key.value);
      FindsLast(v.fields, rest, key.value);
    }
  }

  /** Both passes over the tokens of a document, whatever follows it: the transcript is the items of
      the first preferred name whose value is an array, and a session field is the trimmed string
      that its name has in the document. Without such an array, or without an object, there is none. */
  lemma {:induction false} ScanRefinesLookup(v: Json, rest: seq<Token>)
    ensures var r := ParseTranscript(Tokens(v) + rest);
      if !v.Object? then r.None?
      else
        var doc := AsMap(v.fields);
        match FirstArray(doc, ARRAY_KEYS)
        case None => r.None?
        case Some(key) =>
          && r.Some?
          && key in doc && doc[key].Array? && r.value.items == ItemsOfElems(doc[key].elems, 0)
          && (forall k :: k in SESSION_KEYS ==> At(r.value.fields, k) == StringField(doc, k))
          && (forall k :: k in r.value.fields ==> k in SESSION_KEYS)
  {
    TreeOpens(v);
    if v.Object? {
      ScanRefinesObject(v, rest);
    }
  }
}
