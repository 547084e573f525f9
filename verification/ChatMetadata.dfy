/** The times in the session metadata: those of an append agree with those of a full parse. */
module ChatMetadata {
  import opened Common
  import opened Text
  import opened Json
  import opened ChatTranscript
  import opened ChatRefinement

  // ----- activity times

  datatype Span = Span(started: Option<int>, last: Option<int>)

  function SpanOf(s: Session): Span { Span(s.started, s.last) }

  function Widen(w: Span, t: int): Span {
    Span(if w.started.None? || t < w.started.value then Some(t) else w.started,
         if w.last.None? || t > w.last.value then Some(t) else w.last)
  }

  function WidenAll(w: Span, ts: seq<int>): Span
    decreases |ts|
  {
    if ts == [] then w else WidenAll(Widen(w, ts[0]), ts[1..])
  }

  function Opt(t: Option<int>): seq<int> { if t.Some? then [t.value] else [] }

  function ItemTimes(c: Codec, items: seq<Item>): seq<int>
    decreases |items|
  {
    if items == [] then [] else Opt(TimeOf(c, items[0].payload)) + ItemTimes(c, items[1..])
  }

  /** The time a line gives the session when it is metadata and not an item. */
  function RowTime(c: Codec, row: Row): Option<int> {
    if RowItem(row).None? && row.meta.Some? then TimeOf(c, row.meta.value) else None
  }

  function LineTimes(c: Codec, source: Source, line: string): seq<int> {
    match ReadLine(c, line)
    case Some(Some(payload)) => Opt(RowTime(c, Unwrap(source, payload)))
    case _ => []
  }

  function Gather(times: string -> seq<int>, lines: seq<string>): seq<int>
    decreases |lines|
  {
    if lines == [] then [] else times(lines[0]) + Gather(times, lines[1..])
  }

  function MetaTimes(c: Codec, source: Source, lines: seq<string>): seq<int> {
    Gather(line => LineTimes(c, source, line), lines)
  }

  lemma {:induction false} WidenConcat(w: Span, xs: seq<int>, ys: seq<int>)
    ensures WidenAll(w, xs + ys) == WidenAll(WidenAll(w, xs), ys)
    decreases |xs|
  {
    if xs == [] {
      assert xs + ys == ys;
    } else {
      assert (xs + ys)[1..] == xs[1..] + ys;
      WidenConcat(Widen(w, xs[0]), xs[1..], ys);
    }
  }

  /** In which order times are seen does not matter. */
  lemma {:induction false} WidenOneLate(w: Span, t: int, ys: seq<int>)
    ensures WidenAll(Widen(w, t), ys) == Widen(WidenAll(w, ys), t)
    decreases |ys|
  {
    if ys != [] {
      assert Widen(Widen(w, t), ys[0]) == Widen(Widen(w, ys[0]), t);
      WidenOneLate(Widen(w, ys[0]), t, ys[1..]);
    }
  }

  lemma {:induction false} WidenSwap(w: Span, xs: seq<int>, ys: seq<int>)
    ensures WidenAll(WidenAll(w, xs), ys) == WidenAll(WidenAll(w, ys), xs)
    decreases |xs|
  {
    if xs != [] {
      WidenSwap(Widen(w, xs[0]), xs[1..], ys);
      WidenOneLate(w, xs[0], ys);
    }
  }

  lemma {:induction false} TouchAllWidens(c: Codec, s: Session, items: seq<Item>)
    ensures SpanOf(TouchAll(c, s, items)) == WidenAll(SpanOf(s), ItemTimes(c, items))
    decreases |items|
  {
    if items != [] {
      var t := TimeOf(c, items[0].payload);
      TouchAllWidens(c, TouchIf(s, t), items[1..]);
      if t.Some? {
        assert ItemTimes(c, items)[1..] == ItemTimes(c, items[1..]);
      } else {
        assert ItemTimes(c, items) == ItemTimes(c, items[1..]);
      }
    }
  }

  lemma {:induction false} ItemTimesConcat(c: Codec, xs: seq<Item>, ys: seq<Item>)
    ensures ItemTimes(c, xs + ys) == ItemTimes(c, xs) + ItemTimes(c, ys)
    decreases |xs|
  {
    if xs == [] {
      assert xs + ys == ys;
    } else {
      assert (xs + ys)[1..] == xs[1..] + ys;
      ItemTimesConcat(c, xs[1..], ys);
    }
  }

  lemma {:induction false} GatherConcat(times: string -> seq<int>, xs: seq<string>, ys: seq<string>)
    ensures Gather(times, xs + ys) == Gather(times, xs) + Gather(times, ys)
    decreases |xs|
  {
    if xs == [] {
      assert xs + ys == ys;
    } else {
      assert (xs + ys)[1..] == xs[1..] + ys;
      GatherConcat(times, xs[1..], ys);
    }
  }

  lemma {:induction false} RowWidens(c: Codec, s: Session, row: Row, env: Env)
    ensures SpanOf(ApplyRow(c, s, row, env)) == WidenAll(SpanOf(s), Opt(RowTime(c, row)))
  {
    assert forall w: Span, t: int {:trigger Widen(w, t)} :: WidenAll(w, [t]) == Widen(w, t) by {
      forall w: Span, t: int ensures WidenAll(w, [t]) == Widen(w, t) {
        assert [t][1..] == [];
      }
    }
  }

  lemma {:induction false} ParseWidens(c: Codec, env: Env, p: Parsed, start: nat, lines: seq<string>)
    ensures var r := ParseLines(c, env, p, start, lines);
      r.Some? ==> SpanOf(r.value.session) == WidenAll(SpanOf(p.session), MetaTimes(c, env.source, lines))
    decreases |lines|
  {
    if lines != [] {
      var next := ParseLine(c, env, p, start, lines[0]);
      if next.Some? {
        LineWidens(c, env, p, start, lines[0]);
        WidenConcat(SpanOf(p.session), LineTimes(c, env.source, lines[0]), MetaTimes(c, env.source, lines[1..]));
        ParseWidens(c, env, next.value, start, lines[1..]);
      }
    }
  }

  lemma {:induction false} LineWidens(c: Codec, env: Env, p: Parsed, start: nat, line: string)
    ensures var r := ParseLine(c, env, p, start, line);
      r.Some? ==> SpanOf(r.value.session) == WidenAll(SpanOf(p.session), LineTimes(c, env.source, line))
  {
    match ReadLine(c, line) {
      case None =>
      case Some(None) =>
      case Some(Some(payload)) => RowWidens(c, p.session, Unwrap(env.source, payload), env);
    }
  }

  /** All the time stamps of a transcript: those of its metadata lines, then those of its items. */
  function Times(c: Codec, source: Source, lines: seq<string>, items: seq<Item>): seq<int> {
    MetaTimes(c, source, lines) + ItemTimes(c, items)
  }

  lemma {:induction false} FinalWidens(c: Codec, env: Env, s: Session, start: nat, lines: seq<string>, now: int)
    ensures var r := ParseLines(c, env, Parsed(s, []), start, lines);
      r.Some? ==>
        var w := WidenAll(SpanOf(s), Times(c, env.source, lines, r.value.items));
        && SpanOf(TouchAll(c, r.value.session, r.value.items)) == w
        && (w.started.Some? && w.last.Some? && w.started.value <= w.last.value ==>
              SpanOf(FinalizeTimes(c, r.value.session, r.value.items, now)) == w)
  {
    var r := ParseLines(c, env, Parsed(s, []), start, lines);
    if r.Some? {
      ParseWidens(c, env, Parsed(s, []), start, lines);
      TouchAllWidens(c, r.value.session, r.value.items);
      WidenConcat(SpanOf(s), MetaTimes(c, env.source, lines), ItemTimes(c, r.value.items));
    }
  }

  ghost predicate Ordered(w: Span) { w.started.Some? && w.last.Some? && w.started.value <= w.last.value }

  lemma {:induction false} WidenOrders(w: Span, ts: seq<int>)
    requires Ordered(w) || (w == Span(None, None) && ts != [])
    ensures Ordered(WidenAll(w, ts))
    decreases |ts|
  {
    if ts != [] {
      WidenOrders(Widen(w, ts[0]), ts[1..]);
    }
  }

  /** A parse from ordinal 0, or an append, ends with the given items and span. */
  ghost predicate Ends(c: Codec, env: Env, s: Session, start: nat, lines: seq<string>, items: seq<Item>, w: Span) {
    var r := ParseLines(c, env, Parsed(s, []), start, lines);
    && r.Some? && r.value.items == items
    && forall now :: SpanOf(FinalizeTimes(c, r.value.session, items, now)) == w
  }

  lemma {:induction false} EndsOrdered(c: Codec, env: Env, s: Session, start: nat, lines: seq<string>, items: seq<Item>)
    requires ItemsOf(c, env.source, lines, start) == Some(items)
    requires Ordered(WidenAll(SpanOf(s), Times(c, env.source, lines, items)))
    ensures Ends(c, env, s, start, lines, items, WidenAll(SpanOf(s), Times(c, env.source, lines, items)))
  {
    ItemsIgnoreSession(c, env, Parsed(s, []), start, lines);
    assert [] + items == items;
    forall now {
      FinalWidens(c, env, s, start, lines, now);
    }
  }

  lemma {:induction false} EndsOnce(
    c: Codec, env: Env, s: Session, start: nat, lines: seq<string>, items: seq<Item>, w: Span, w': Span)
    requires Ends(c, env, s, start, lines, items, w) && Ends(c, env, s, start, lines, items, w')
    ensures w == w'
  {
    var r := ParseLines(c, env, Parsed(s, []), start, lines);
    assert SpanOf(FinalizeTimes(c, r.value.session, items, 0)) == w;
  }

  /** The start and last activity that an append computes from the stored times and the appended
      bytes are those of a full parse, when the bytes imported before had a time stamp at all. */
  lemma {:induction false} AppendTimesRefineFull(
    c: Codec, env: Env, env': Env, s0: Session, base: Session, a: string, b: string, was: seq<Item>)
    requires AtBoundary(a) && env'.source == env.source && SpanOf(s0) == Span(None, None)
    requires FileItems(c, env.source, a) == Some(was) && FileItems(c, env.source, a + b).Some?
    requires Times(c, env.source, Lines(a), was) != []
    requires Ends(c, env, s0, 0, Lines(a), was, SpanOf(base))
    ensures var full := FileItems(c, env.source, a + b).value;
      && was <= full
      && exists w ::
           Ends(c, env, s0, 0, Lines(a + b), full, w) && Ends(c, env', base, |was|, Lines(b), full[|was|..], w)
  {
    var full := FileItems(c, env.source, a + b).value;
    AppendRefinesFull(c, env.source, a, b);
    var more := ItemsOf(c, env.source, Lines(b), |was|).value;
    assert full[|was|..] == more;
    AppendMetaTimes(line => LineTimes(c, env.source, line), a, b);
    TimesAgree(c, env.source, Lines(a), Lines(b), was, more);
    WidenOrders(Span(None, None), Times(c, env.source, Lines(a), was));
    EndsOrdered(c, env, s0, 0, Lines(a), was);
    var all := WidenAll(Span(None, None), Times(c, env.source, Lines(a), was));
    EndsOnce(c, env, s0, 0, Lines(a), was, SpanOf(base), all);
    WidenOrders(SpanOf(base), Times(c, env.source, Lines(b), more));
    EndsOrdered(c, env, s0, 0, Lines(a + b), full);
    EndsOrdered(c, env', base, |was|, Lines(b), more);
  }

  lemma {:induction false} AppendMetaTimes(times: string -> seq<int>, a: string, b: string)
    requires AtBoundary(a) && times("") == []
    ensures Gather(times, Lines(a + b)) == Gather(times, Lines(a)) + Gather(times, Lines(b))
  {
    var xs := LinesAtBoundary(a, b);
    GatherConcat(times, xs, Lines(b));
    GatherConcat(times, xs, [""]);
    var blank := [""];
    assert blank[1..] == [] && Gather(times, blank) == [];
  }

  lemma {:induction false} TimesAgree(
    c: Codec, source: Source, la: seq<string>, lb: seq<string>, was: seq<Item>, more: seq<Item>)
    ensures var none := Span(None, None);
      WidenAll(none, (MetaTimes(c, source, la) + MetaTimes(c, source, lb)) + ItemTimes(c, was + more))
      == WidenAll(WidenAll(none, Times(c, source, la, was)), Times(c, source, lb, more))
  {
    var none := Span(None, None);
    var ma, mb, ia, ib := MetaTimes(c, source, la), MetaTimes(c, source, lb), ItemTimes(c, was), ItemTimes(c, more);
    ItemTimesConcat(c, was, more);
    WidenConcat(none, ma + mb, ia + ib);
    WidenConcat(none, ma, mb);
    WidenConcat(WidenAll(WidenAll(none, ma), mb), ia, ib);
    WidenSwap(WidenAll(none, ma), mb, ia);
    WidenConcat(none, ma, ia);
    WidenConcat(WidenAll(WidenAll(none, ma), ia), mb, ib);
  }
}
