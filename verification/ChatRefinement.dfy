/** Parsing only what was appended to a transcript agrees with parsing all of it. */
module ChatRefinement {
  import opened Common
  import opened Text
  import opened Json
  import opened ChatTranscript

  // ----- items

  /** Two parses one after the other: the second is not reached if the first fails. */
  function Then(a: Option<seq<Item>>, b: Option<seq<Item>>): Option<seq<Item>> {
    if a.Some? && b.Some? then Some(a.value + b.value) else None
  }

  lemma {:induction false} OrdinalsAfter(item: Item, rest: seq<Item>)
    requires forall i :: 0 <= i < |rest| ==> rest[i].ordinal == item.ordinal + 1 + i
    ensures forall i :: 0 <= i < |[item] + rest| ==> ([item] + rest)[i].ordinal == item.ordinal + i
  {}

  /** The ordinals of a parse count up from its start without a gap. */
  lemma {:induction false} OrdinalsCount(read: Reader, lines: seq<string>, start: nat)
    ensures var r := NumberItems(read, lines, start);
      r.Some? ==> forall i :: 0 <= i < |r.value| ==> r.value[i].ordinal == start + i
    decreases |lines|
  {
    if lines != [] {
      match read(lines[0]) {
        case None =>
        case Some(None) => OrdinalsCount(read, lines[1..], start);
        case Some(Some(payload)) =>
          OrdinalsCount(read, lines[1..], start + 1);
          var rest := NumberItems(read, lines[1..], start + 1);
          if rest.Some? {
            OrdinalsAfter(Item(start, payload), rest.value);
            assert NumberItems(read, lines, start) == Some([Item(start, payload)] + rest.value);
          }
      }
    }
  }

  lemma {:induction false} ItemsOfConcat(read: Reader, xs: seq<string>, ys: seq<string>, start: nat)
    ensures var a := NumberItems(read, xs, start);
      NumberItems(read, xs + ys, start) ==
        if a.None? then None else Then(a, NumberItems(read, ys, start + |a.value|))
    decreases |xs|
  {
    if xs == [] {
      assert xs + ys == ys;
      var b := NumberItems(read, ys, start);
      assert b.Some? ==> [] + b.value == b.value;
    } else {
      assert (xs + ys)[1..] == xs[1..] + ys && (xs + ys)[0] == xs[0];
      ItemsOfConcat(read, xs[1..], ys, start);
      ItemsOfConcat(read, xs[1..], ys, start + 1);
      if read(xs[0]).Some? && read(xs[0]).value.Some? {
        var item := Item(start, read(xs[0]).value.value);
        var a := NumberItems(read, xs[1..], start + 1);
        if a.Some? {
          assert |[item] + a.value| == 1 + |a.value|;
          var b := NumberItems(read, ys, start + 1 + |a.value|);
          assert b.Some? ==> [item] + (a.value + b.value) == ([item] + a.value) + b.value;
        }
      }
    }
  }

  /** Bytes that begin at a line boundary: the full parse is the parse of the old bytes and then the
      parse of the new ones with the ordinals continued. It fails exactly when one of them does. */
  lemma {:induction false} AppendRefinesFull(c: Codec, source: Source, a: string, b: string)
    requires AtBoundary(a)
    ensures var was := FileItems(c, source, a);
      FileItems(c, source, a + b) ==
        if was.None? then None else Then(was, ItemsOf(c, source, Lines(b), |was.value|))
  {
    BlankLines(c, source);
    AppendAtBoundary(ReaderOf(c, source), a, b);
  }

  lemma {:induction false} BlankLines(c: Codec, source: Source)
    ensures forall line :: Blank(line) ==> ReaderOf(c, source)(line) == Some(None)
  {
    forall line | Blank(line) ensures ReaderOf(c, source)(line) == Some(None) {
      TrimBlank(line);
    }
  }

  lemma {:induction false} AppendAtBoundary(read: Reader, a: string, b: string)
    requires AtBoundary(a) && read("") == Some(None)
    ensures var was := NumberItems(read, Lines(a), 0);
      NumberItems(read, Lines(a + b), 0) ==
        if was.None? then None else Then(was, NumberItems(read, Lines(b), |was.value|))
  {
    var xs := LinesAtBoundary(a, b);
    ItemsOfConcat(read, xs, Lines(b), 0);
    ItemsOfConcat(read, xs, [""], 0);
    var p := NumberItems(read, xs, 0);
    if p.Some? {
      assert NumberItems(read, [""][1..], |p.value|) == Some([]);
      assert NumberItems(read, [""], |p.value|) == Some([]);
      assert p.value + [] == p.value;
    }
  }

  /** No text that decodes as an object goes on, after something that is not white space, as the
      same object: true of JSON, whose objects end at their closing brace. */
  ghost predicate SelfDelimiting(c: Codec) {
    forall x: string, y: string ::
      !Blank(x) && c.decode(Trim(x)).Some? && c.decode(Trim(x + y)).Some? ==> Blank(y)
  }

  /** A line may grow by white space, or out of white space, and in no other way. */
  ghost predicate GrowsByBlanks(read: Reader) {
    && (forall line :: Blank(line) ==> read(line) == Some(None))
    && (forall x: string, y: string :: Blank(x) ==> read(x + y) == read(y))
    && (forall x: string, y: string :: !Blank(x) && read(x).Some? && read(x + y).Some? ==>
        Blank(y) && read(x + y) == read(x))
  }

  lemma {:induction false} ReaderGrowsByBlanks(c: Codec, source: Source)
    requires SelfDelimiting(c)
    ensures GrowsByBlanks(ReaderOf(c, source))
  {
    var read := ReaderOf(c, source);
    BlankLines(c, source);
    forall x: string, y: string | Blank(x) ensures read(x + y) == read(y) {
      TrimBlankPrefix(x, y);
    }
    forall x: string, y: string | !Blank(x) && read(x).Some? && read(x + y).Some?
      ensures Blank(y) && read(x + y) == read(x)
    {
      TrimBlank(x);
      TrimBlank(x + y);
      assert !Blank(x + y) by {
        var ch :| ch in x && !IsSpace(ch);
        assert ch in x + y;
      }
      TrimBlankSuffix(x, y);
    }
  }

  lemma {:induction false} OneLine(read: Reader, line: string, k: nat)
    ensures NumberItems(read, [line], k) ==
      match read(line)
      case None => None
      case Some(None) => Some([])
      case Some(Some(payload)) => Some([Item(k, payload)])
  {
    assert [line][1..] == [];
    assert NumberItems(read, [line][1..], k) == Some([]) && NumberItems(read, [line][1..], k + 1) == Some([]);
    if read(line).Some? && read(line).value.Some? {
      assert [Item(k, read(line).value.value)] + [] == [Item(k, read(line).value.value)];
    }
  }

  /** The items of a grown line are those of the line and then those of what it grew by. */
  ghost predicate GrowsAt(read: Reader, x: string, y: string, k: nat) {
    var i := NumberItems(read, [x], k);
    i.Some? && NumberItems(read, [x + y], k) == Then(i, NumberItems(read, [y], k + |i.value|))
  }

  lemma {:induction false} LineGrows(read: Reader, x: string, y: string, k: nat)
    requires read(x).Some? && read(x + y).Some?
    requires if Blank(x) then read(x) == Some(None) && read(x + y) == read(y)
             else read(y) == Some(None) && read(x + y) == read(x)
    ensures GrowsAt(read, x, y, k)
  {
    OneLine(read, x, k);
    OneLine(read, x + y, k);
    var i := NumberItems(read, [x], k).value;
    OneLine(read, y, k + |i|);
    var j := NumberItems(read, [y], k + |i|);
    if Blank(x) {
      assert j.Some? ==> [] + j.value == j.value;
    } else {
      assert i + [] == i;
    }
  }

  lemma {:induction false} LineGrowsByBlanks(c: Codec, source: Source, x: string, y: string, k: nat)
    requires SelfDelimiting(c)
    requires LineItem(c, source, x).Some? && LineItem(c, source, x + y).Some?
    ensures GrowsAt(ReaderOf(c, source), x, y, k)
  {
    ReaderGrowsByBlanks(c, source);
    LineGrows(ReaderOf(c, source), x, y, k);
  }

  /** A parse that succeeds, line by line. */
  lemma {:induction false} SplitParse(read: Reader, xs: seq<string>, line: string, ys: seq<string>)
    requires NumberItems(read, xs + ([line] + ys), 0).Some?
    ensures NumberItems(read, xs, 0).Some? && read(line).Some?
  {
    ItemsOfConcat(read, xs, [line] + ys, 0);
    var k := |NumberItems(read, xs, 0).value|;
    ItemsOfConcat(read, [line], ys, k);
    OneLine(read, line, k);
  }

  /** The three parts of a parse in the middle of which one line grows from x to x + y. */
  lemma {:induction false} AppendInLine(read: Reader, xs: seq<string>, x: string, y: string, ys: seq<string>)
    requires NumberItems(read, xs, 0).Some? && GrowsAt(read, x, y, |NumberItems(read, xs, 0).value|)
    ensures var was := NumberItems(read, xs + [x], 0);
      was.Some? && NumberItems(read, xs + ([x + y] + ys), 0) == Then(was, NumberItems(read, [y] + ys, |was.value|))
  {
    var p := NumberItems(read, xs, 0).value;
    var k := |p|;
    var i := NumberItems(read, [x], k).value;
    ItemsOfConcat(read, xs, [x], 0);
    assert NumberItems(read, xs + [x], 0) == Some(p + i) && |p + i| == k + |i|;
    var j := NumberItems(read, [y], k + |i|);
    ItemsOfConcat(read, [y], ys, k + |i|);
    ItemsOfConcat(read, xs, [x + y] + ys, 0);
    ItemsOfConcat(read, [x + y], ys, k);
    if j.Some? {
      ThreeParts(p, i, j.value, NumberItems(read, ys, k + |i + j.value|));
      assert |i + j.value| == |i| + |j.value|;
    }
  }

  lemma {:induction false} ThreeParts(p: seq<Item>, i: seq<Item>, j: seq<Item>, t: Option<seq<Item>>)
    ensures Then(Some(p), Then(Some(i + j), t)) == Then(Some(p + i), Then(Some(j), t))
  {
    if t.Some? {
      assert p + ((i + j) + t.value) == (p + i) + (j + t.value);
    }
  }

  lemma {:induction false} AppendLines(c: Codec, source: Source, la: seq<string>, lb: seq<string>)
    requires SelfDelimiting(c) && la != [] && lb != []
    requires NumberItems(ReaderOf(c, source), la, 0).Some?
    requires NumberItems(ReaderOf(c, source), Weld(la, lb), 0).Some?
    ensures var read, was := ReaderOf(c, source), NumberItems(ReaderOf(c, source), la, 0);
      NumberItems(read, Weld(la, lb), 0) == Then(was, NumberItems(read, lb, |was.value|))
  {
    var read := ReaderOf(c, source);
    var xs, x := la[..|la| - 1], la[|la| - 1];
    assert la == xs + [x] && xs + [x] == xs + ([x] + []);
    SplitParse(read, xs, x, []);
    assert Weld(la, lb) == xs + ([x + lb[0]] + lb[1..]);
    SplitParse(read, xs, x + lb[0], lb[1..]);
    LineGrowsByBlanks(c, source, x, lb[0], |NumberItems(read, xs, 0).value|);
    AppendInLine(read, xs, x, lb[0], lb[1..]);
    assert lb == [lb[0]] + lb[1..];
  }

  /** Wherever the old bytes end, even in the middle of a line: if the old bytes parse and all of
      them parse, then the appended bytes parse and give the rest of the items. */
  lemma {:induction false} AppendRefinesFullAnywhere(c: Codec, source: Source, a: string, b: string)
    requires SelfDelimiting(c)
    requires FileItems(c, source, a).Some? && FileItems(c, source, a + b).Some?
    ensures var was := FileItems(c, source, a);
      FileItems(c, source, a + b) == Then(was, ItemsOf(c, source, Lines(b), |was.value|))
  {
    LinesOfConcat(a, b);
    AppendLines(c, source, Lines(a), Lines(b));
  }
}
