/**
 The two passes of module JsonScan as the code runs them: loops that pull tokens from a decoder.
 Every method leaves the decoder, and returns, what its function says.
 */
module JsonReader {
  import opened Common
  import opened Text
  import opened Json
  import opened ChatTranscript
  import S = JsonScan

  class Decoder {
    var rest: seq<S.Token>

    constructor (tokens: seq<S.Token>)
      ensures rest == tokens
    {
      rest := tokens;
    }

    predicate More()
      reads this
    {
      S.More(rest)
    }

    /** Token on the way into a value or a name; a closing delimiter there is a syntax error. */
    method Open() returns (t: Option<S.Token>)
      modifies this
      ensures old(S.More(rest)) ==> t == Some(old(rest)[0]) && rest == old(rest)[1..]
      ensures !old(S.More(rest)) ==> t == None && rest == old(rest)
    {
      if S.More(rest) {
        t, rest := Some(rest[0]), rest[1..];
      } else {
        t := None;
      }
    }

    method ConsumeDelim(want: S.Token) returns (ok: bool)
      modifies this
      ensures ok == S.Consume(old(rest), want).Some?
      ensures rest == if ok then S.Consume(old(rest), want).value else old(rest)
    {
      ok := rest != [] && rest[0] == want;
      if ok {
        rest := rest[1..];
      }
    }

    method SkipValue() returns (ok: bool)
      modifies this
      ensures ok == S.SkipValue(old(rest)).Some?
      ensures ok ==> rest == S.SkipValue(old(rest)).value
      decreases |rest|, 0
    {
      var t := Open();
      if t.None? {
        return false;
      }
      if t.value.OpenObject? || t.value.OpenArray? {
        ok := SkipComposite(t.value);
      } else {
        ok := true;
      }
    }

    /** skipJSONComposite: one loop for objects, one for arrays. */
    method SkipComposite(start: S.Token) returns (ok: bool)
      requires start.OpenObject? || start.OpenArray?
      modifies this
      ensures var left := if start.OpenObject? then S.SkipFields(old(rest)) else S.SkipElems(old(rest));
        ok == left.Some? && (ok ==> rest == left.value)
      decreases |rest|, 1
    {
      if start.OpenObject? {
        while More()
          invariant |rest| <= |old(rest)|
          invariant S.SkipFields(rest) == S.SkipFields(old(rest))
          decreases |rest|
        {
          var key := Open();
          if !key.value.TextToken? {
            return false;
          }
          ok := SkipValue();
          if !ok {
            return;
          }
        }
        ok := ConsumeDelim(S.CloseObject);
      } else {
        while More()
          invariant |rest| <= |old(rest)|
          invariant S.SkipElems(rest) == S.SkipElems(old(rest))
          decreases |rest|
        {
          ok := SkipElem();
          if !ok {
            return;
          }
        }
        ok := ConsumeDelim(S.CloseArray);
      }
    }

    /** SkipValue where the decoder has just said that there is more. */
    method SkipElem() returns (ok: bool)
      requires More()
      modifies this
      ensures ok == S.SkipValue(old(rest)).Some?
      ensures ok ==> rest == S.SkipValue(old(rest)).value
      decreases |rest|, 0
    {
      var t := Open();
      if t.value.OpenObject? || t.value.OpenArray? {
        ok := SkipComposite(t.value);
      } else {
        ok := true;
      }
    }

    method Decode() returns (v: Option<Json>)
      modifies this
      ensures v.Some? == S.DecodeValue(old(rest)).Some?
      ensures v.Some? ==> S.DecodeValue(old(rest)) == Some(S.Decoded(v.value, rest))
    {
      var r := S.DecodeValue(rest);
      if r.None? {
        return None;
      }
      v, rest := Some(r.value.value), r.value.rest;
    }

    /** scanJSONTranscript: the first pass. */
    method ScanTranscript() returns (scan: Option<S.Scan>)
      modifies this
      ensures scan == S.ScanTranscript(old(rest))
    {
      var ok := ConsumeDelim(S.OpenObject);
      if !ok {
        return None;
      }
      ghost var body := rest;
      var noted := S.NO_SCAN;
      while More()
        invariant S.ScanFields(S.NAMES, rest, noted) == S.ScanFields(S.NAMES, body, S.NO_SCAN)
        decreases |rest|
      {
        var key := Open();
        if !key.value.TextToken? {
          return None;
        }
        var value := rest;
        ok := SkipValue();
        if !ok {
          return None;
        }
        noted := S.NoteToken(S.NAMES, noted, key.value.s, value[0]);
      }
      ok := ConsumeDelim(S.CloseObject);
      scan := if ok then Some(noted) else None;
    }

    /** decodeJSONTranscriptItems: every element takes an ordinal, only objects become items. */
    method DecodeItems() returns (items: Option<seq<Item>>)
      modifies this
      ensures items == S.DecodeItems(old(rest), 0)
    {
      var found: seq<Item>, ordinal := [], 0;
      ghost var all := S.DecodeItems(rest, 0);
      assert all.Some? ==> [] + all.value == all.value;
      while More()
        invariant match S.DecodeItems(rest, ordinal)
                  case None => S.DecodeItems(old(rest), 0) == None
                  case Some(more) => S.DecodeItems(old(rest), 0) == Some(found + more)
        decreases |rest|
      {
        ghost var before := S.DecodeItems(rest, ordinal);
        ghost var was := found;
        var v := Decode();
        if v.None? {
          return None;
        }
        if v.value.Object? {
          found := found + [Item(ordinal, AsMap(v.value.fields))];
        }
        ordinal := ordinal + 1;
        ghost var after := S.DecodeItems(rest, ordinal);
        if after.Some? {
          assert was + before.value == found + after.value;
        }
      }
      var ok := ConsumeDelim(S.CloseArray);
      assert found + [] == found;
      items := if ok then Some(found) else None;
    }

    /** parseJSONTranscriptArray: the second pass, on a decoder at the start of the file again. */
    method ParseArray(key: string, target: nat) returns (items: Option<seq<Item>>)
      requires target > 0
      modifies this
      ensures items ==
        if S.Consume(old(rest), S.OpenObject).None? then None else S.FindArray(old(rest)[1..], key, target)
    {
      var ok := ConsumeDelim(S.OpenObject);
      if !ok {
        return None;
      }
      ghost var body := rest;
      var occurrence := 0;
      while More()
        invariant occurrence < target
        invariant S.FindArray(rest, key, target - occurrence) == S.FindArray(body, key, target)
        decreases |rest|
      {
        var field := Open();
        if !field.value.TextToken? {
          return None;
        }
        if field.value.s == key && occurrence + 1 == target {
          ok := ConsumeDelim(S.OpenArray);
          if !ok {
            return None;
          }
          items := DecodeItems();
          return;
        }
        if field.value.s == key {
          occurrence := occurrence + 1;
        }
        ok := SkipValue();
        if !ok {
          return None;
        }
      }
      items := None;
    }
  }

  /** parseJSONTranscript opens the file twice, once for each pass. */
  method ParseTranscript(tokens: seq<S.Token>) returns (r: Option<S.Transcript>)
    ensures r == S.ParseTranscript(tokens)
  {
    var first := new Decoder(tokens);
    var scan := first.ScanTranscript();
    if scan.None? {
      return None;
    }
    var key := S.SelectedArray(scan.value, S.ARRAY_KEYS);
    if key.None? {
      return None;
    }
    SelectedOccurs(tokens, scan.value, key.value);
    var second := new Decoder(tokens);
    var items := second.ParseArray(key.value, S.ArrayAt(scan.value, key.value).occurrence);
    r := if items.None? then None else Some(S.Transcript(scan.value.fields, items.value));
  }

  /** A name that has been seen has been seen at least once. */
  ghost predicate Counted(scan: S.Scan) { forall key :: key in scan.arrays ==> scan.arrays[key].occurrence > 0 }

  lemma {:induction false} ScanCounts(ts: seq<S.Token>, scan: S.Scan)
    requires Counted(scan)
    ensures var r := S.ScanFields(S.NAMES, ts, scan); r.Some? ==> Counted(r.value)
    decreases |ts|
  {
    if S.More(ts) && ts[0].TextToken? && S.SkipValue(ts[1..]).Some? {
      var next := S.NoteToken(S.NAMES, scan, ts[0].s, ts[1]);
      assert Counted(next);
      ScanCounts(S.SkipValue(ts[1..]).value, next);
    }
  }

  lemma {:induction false} SelectedIsArray(scan: S.Scan, keys: seq<string>)
    ensures var key := S.SelectedArray(scan, keys); key.Some? ==> S.ArrayAt(scan, key.value).isArray
  {
    if keys != [] {
      SelectedIsArray(scan, keys[1..]);
    }
  }

  lemma {:induction false} SelectedOccurs(tokens: seq<S.Token>, scan: S.Scan, key: string)
    requires S.ScanTranscript(tokens) == Some(scan) && S.SelectedArray(scan, S.ARRAY_KEYS) == Some(key)
    ensures S.ArrayAt(scan, key).occurrence > 0
  {
    ScanCounts(tokens[1..], S.NO_SCAN);
    SelectedIsArray(scan, S.ARRAY_KEYS);
  }
}
