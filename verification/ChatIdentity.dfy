/** Forks and subagents: the identity that the metadata fold gives a transcript. */
module ChatIdentity {
  import opened Common
  import opened Text
  import opened Json
  import opened ChatTranscript

  // ----- Codex forks

  /** `s'` still has the identity and attribution that the fork's own header gave it in `s`. */
  ghost predicate KeepsHeader(s: Session, s': Session) {
    && s'.parent == s.parent && s'.id == s.id && s'.cwd == s.cwd
    && (s.title.Some? ==> s'.title == s.title)
  }

  /** A header that makes a fork: an ancestor, an id of its own and a working directory. */
  ghost predicate ForkHeader(p: Payload, fallback: string) {
    && StringField(p, "forked_from_id").Some? && StringField(p, "cwd").Some?
    && var id := FirstString(p, ["session_id", "conversation_id", "chat_id", "id"]);
       id.Some? && id.value != fallback
  }

  lemma {:induction false} HeaderApplies(c: Codec, s: Session, p: Payload, fallback: string)
    requires s.id == fallback && s.parent.None? && s.cwd.None? && s.title.None?
    requires ForkHeader(p, fallback)
    ensures var s' := ApplySession(c, s, p, fallback);
      && s'.parent == StringField(p, "forked_from_id")
      && Some(s'.id) == FirstString(p, ["session_id", "conversation_id", "chat_id", "id"])
      && s'.cwd == StringField(p, "cwd") && s'.title == StringField(p, "title")
  {}

  lemma {:induction false} RowKeepsHeader(c: Codec, s: Session, row: Row, env: Env)
    requires env.basename == "" && s.parent.Some? && s.cwd.Some? && s.id != env.fallback
    ensures KeepsHeader(s, ApplyRow(c, s, row, env))
  {}

  lemma {:induction false} FoldKeepsHeader(c: Codec, env: Env, p: Parsed, start: nat, lines: seq<string>)
    requires env.basename == "" && p.session.parent.Some? && p.session.cwd.Some? && p.session.id != env.fallback
    ensures var r := ParseLines(c, env, p, start, lines);
      r.Some? ==> KeepsHeader(p.session, r.value.session)
    decreases |lines|
  {
    if lines != [] {
      LineKeepsHeader(c, env, p, start, lines[0]);
      var next := ParseLine(c, env, p, start, lines[0]);
      if next.Some? {
        FoldKeepsHeader(c, env, next.value, start, lines[1..]);
      }
    }
  }

  lemma {:induction false} LineKeepsHeader(c: Codec, env: Env, p: Parsed, start: nat, line: string)
    requires env.basename == "" && p.session.parent.Some? && p.session.cwd.Some? && p.session.id != env.fallback
    ensures var r := ParseLine(c, env, p, start, line);
      r.Some? ==> KeepsHeader(p.session, r.value.session)
  {
    match ReadLine(c, line) {
      case None =>
      case Some(None) =>
      case Some(Some(payload)) => RowKeepsHeader(c, p.session, Unwrap(env.source, payload), env);
    }
  }

  lemma {:induction false} ParseInTwo(
    c: Codec, env: Env, p: Parsed, start: nat, xs: seq<string>, ys: seq<string>)
    ensures var r := ParseLines(c, env, p, start, xs);
      ParseLines(c, env, p, start, xs + ys) == if r.None? then None else ParseLines(c, env, r.value, start, ys)
    decreases |xs|
  {
    if xs == [] {
      assert xs + ys == ys;
    } else {
      assert (xs + ys)[0] == xs[0] && (xs + ys)[1..] == xs[1..] + ys;
      var next := ParseLine(c, env, p, start, xs[0]);
      if next.Some? {
        ParseInTwo(c, env, next.value, start, xs[1..], ys);
      }
    }
  }

  /** No metadata so far. */
  ghost predicate Unset(s: Session, fallback: string) {
    s.id == fallback && s.parent.None? && s.cwd.None? && s.title.None?
  }

  /** A Codex transcript whose lines before the fork's own session_meta say nothing of the session:
      whatever is replayed after it, the session keeps the ancestor, the id, the directory and, if
      there is one, the title of that header. */
  lemma {:induction false} ForkKeepsItsHeader(
    c: Codec, env: Env, s: Session, pre: seq<string>, line: string, line': Payload, header: Payload, rest: seq<string>)
    requires env.source == Codex && env.basename == ""
    requires var p := ParseLines(c, env, Parsed(s, []), 0, pre); p.Some? && Unset(p.value.session, env.fallback)
    requires ReadLine(c, line) == Some(Some(line'))
    requires FirstString(line', ["type"]) == Some("session_meta") && ObjectField(line', "payload") == Some(header)
    requires ForkHeader(header, env.fallback)
    ensures var r := ParseLines(c, env, Parsed(s, []), 0, pre + ([line] + rest));
      r.Some? ==>
        && r.value.session.parent == StringField(header, "forked_from_id")
        && Some(r.value.session.id) == FirstString(header, ["session_id", "conversation_id", "chat_id", "id"])
        && r.value.session.cwd == StringField(header, "cwd")
        && (StringField(header, "title").Some? ==> r.value.session.title == StringField(header, "title"))
  {
    var p0 := ParseLines(c, env, Parsed(s, []), 0, pre).value;
    ParseInTwo(c, env, Parsed(s, []), 0, pre, [line] + rest);
    HeaderApplies(c, p0.session, header, env.fallback);
    var p := Parsed(ApplySession(c, p0.session, header, env.fallback), p0.items);
    assert Unwrap(Codex, line') == Row(None, Some(header));
    assert ParseLine(c, env, p0, 0, line) == Some(p);
    assert ([line] + rest)[1..] == rest;
    FoldKeepsHeader(c, env, p, 0, rest);
  }

  // ----- Claude subagents

  /** The id an item row carries: in a subagent's file, that of the transcript it belongs to. */
  function CarriedId(row: Row): Option<string> {
    if RowItem(row).Some? && row.meta.Some? then
      FirstString(row.meta.value, ["session_id", "sessionId", "conversation_id", "chat_id"])
    else None
  }

  predicate Sidechain(row: Row) {
    row.meta.Some? && "isSidechain" in row.meta.value && row.meta.value["isSidechain"] == Bool(true)
  }

  /** An item row that carries an id carries the parent's, and is known to be a subagent's by the
      file's place or by its own mark. */
  ghost predicate BelongsTo(row: Row, env: Env, parent: string) {
    CarriedId(row).Some? ==> CarriedId(row).value == parent && (env.byPath || Sidechain(row))
  }

  /** What a metadata row claims as ancestor, and the id it names. */
  function Claimed(row: Row): Option<string> {
    if RowItem(row).None? && row.meta.Some? then StringField(row.meta.value, "forked_from_id") else None
  }

  function Named(row: Row): Option<string> {
    if RowItem(row).None? && row.meta.Some? then
      FirstString(row.meta.value, ["session_id", "conversation_id", "chat_id", "id"])
    else None
  }

  /** The row of a line; a line without one has neither item nor metadata. */
  function RowOf(c: Codec, source: Source, line: string): Row {
    match ReadLine(c, line)
    case Some(Some(payload)) => Unwrap(source, payload)
    case _ => Row(None, None)
  }

  ghost predicate FileOf(c: Codec, env: Env, lines: seq<string>, parent: string) {
    && env.basename != "" && env.fallback == env.basename
    && forall line :: line in lines ==> BelongsTo(RowOf(c, env.source, line), env, parent)
  }

  /** Some item row carries an id, and no metadata row before it claims an ancestor. */
  predicate CarriesUnclaimed(c: Codec, source: Source, lines: seq<string>)
    decreases |lines|
  {
    && lines != []
    && var row := RowOf(c, source, lines[0]);
       CarriedId(row).Some? || (Claimed(row).None? && CarriesUnclaimed(c, source, lines[1..]))
  }

  /** The first id other than the fallback that a metadata row names, or the fallback. */
  function NamedId(c: Codec, source: Source, lines: seq<string>, fallback: string): string
    decreases |lines|
  {
    if lines == [] then fallback
    else
      var id := Named(RowOf(c, source, lines[0]));
      if id.Some? && id.value != fallback then id.value else NamedId(c, source, lines[1..], fallback)
  }

  function OwnId(parent: string, env: Env): string { parent + ":" + env.basename }

  /** The session after lines that the session `s` is the state before. */
  ghost predicate Identified(c: Codec, env: Env, s: Session, lines: seq<string>, parent: string, s': Session) {
    if s.parent.None? && CarriesUnclaimed(c, env.source, lines) then
      s'.id == OwnId(parent, env) && s'.parent == Some(parent)
    else
      && s'.id == (if s.id != env.fallback then s.id else NamedId(c, env.source, lines, env.fallback))
      && (s.parent.Some? ==> s'.parent == s.parent)
  }

  lemma {:induction false} RowIdentifies(c: Codec, s: Session, row: Row, env: Env, parent: string)
    requires env.basename != "" && BelongsTo(row, env, parent)
    ensures var s' := ApplyRow(c, s, row, env);
      && (CarriedId(row).Some? && s.parent.None? ==> s'.id == OwnId(parent, env) && s'.parent == Some(parent))
      && (CarriedId(row).Some? && s.parent.Some? ==> s'.id == s.id && s'.parent == s.parent)
      && (CarriedId(row).None? ==>
            && s'.parent == (if s.parent.None? then Claimed(row) else s.parent)
            && s'.id == (if s.id == env.fallback && Named(row).Some? then Named(row).value else s.id))
  {}

  lemma {:induction false} LineIdentifies(c: Codec, env: Env, p: Parsed, start: nat, line: string)
    ensures var r := ParseLine(c, env, p, start, line);
      r.Some? ==> r.value.session == ApplyRow(c, p.session, RowOf(c, env.source, line), env)
  {}

  lemma {:induction false} OwnIdIsNew(parent: string, env: Env)
    requires env.fallback == env.basename
    ensures OwnId(parent, env) != env.fallback
  {
    assert |OwnId(parent, env)| > |env.fallback|;
  }

  lemma {:induction false} FoldIdentifies(
    c: Codec, env: Env, p: Parsed, start: nat, lines: seq<string>, parent: string)
    requires FileOf(c, env, lines, parent)
    ensures var r := ParseLines(c, env, p, start, lines);
      r.Some? ==> Identified(c, env, p.session, lines, parent, r.value.session)
    decreases |lines|
  {
    if lines != [] {
      var next := ParseLine(c, env, p, start, lines[0]);
      if next.Some? {
        LineIdentifies(c, env, p, start, lines[0]);
        RowIdentifies(c, p.session, RowOf(c, env.source, lines[0]), env, parent);
        OwnIdIsNew(parent, env);
        FoldIdentifies(c, env, next.value, start, lines[1..], parent);
      }
    }
  }

  /** The identity of a subagent's file, whatever its lines: its parent's id and its own name if an
      item row carries that id and no metadata row before it claims an ancestor; otherwise the first
      id that a metadata row names, or the bare name. */
  lemma {:induction false} SubagentIdentity(c: Codec, env: Env, s: Session, lines: seq<string>, parent: string)
    requires FileOf(c, env, lines, parent) && s.id == env.fallback && s.parent.None?
    ensures var r := ParseLines(c, env, Parsed(s, []), 0, lines);
      r.Some? ==>
        if CarriesUnclaimed(c, env.source, lines) then
          r.value.session.id == OwnId(parent, env) && r.value.session.parent == Some(parent)
        else r.value.session.id == NamedId(c, env.source, lines, env.fallback)
  {
    FoldIdentifies(c, env, Parsed(s, []), 0, lines, parent);
  }

  /** Exactly when such a file gets an id of its own: no claim comes before its first carried id. */
  lemma {:induction false} IdentifiedExactly(c: Codec, env: Env, s: Session, lines: seq<string>, parent: string)
    requires FileOf(c, env, lines, parent) && s.id == env.fallback && s.parent.None?
    requires forall line :: line in lines ==> Named(RowOf(c, env.source, line)) != Some(OwnId(parent, env))
    ensures var r := ParseLines(c, env, Parsed(s, []), 0, lines);
      r.Some? ==> (r.value.session.id == OwnId(parent, env) <==> CarriesUnclaimed(c, env.source, lines))
  {
    SubagentIdentity(c, env, s, lines, parent);
    OwnIdIsNew(parent, env);
    NamedIdIsNamed(c, env.source, lines, env.fallback);
  }

  lemma {:induction false} NamedIdIsNamed(c: Codec, source: Source, lines: seq<string>, fallback: string)
    ensures var id := NamedId(c, source, lines, fallback);
      id == fallback || exists line :: line in lines && Named(RowOf(c, source, line)) == Some(id)
    decreases |lines|
  {
    if lines != [] {
      var id := Named(RowOf(c, source, lines[0]));
      if id.Some? && id.value != fallback {
        assert lines[0] in lines;
      } else {
        NamedIdIsNamed(c, source, lines[1..], fallback);
        assert forall line :: line in lines[1..] ==> line in lines;
      }
    }
  }

  lemma {:induction false} OwnIdsDiffer(parent: string, env: Env, env': Env)
    requires env.basename != env'.basename
    ensures OwnId(parent, env) != OwnId(parent, env')
  {
    var head := parent + ":";
    assert OwnId(parent, env)[|head|..] == env.basename && OwnId(parent, env')[|head|..] == env'.basename;
  }

  /** Two subagents of one parent, with lines of their own or the same ones, never share an identity
      if neither file claims an ancestor before it carries the parent's id. */
  lemma {:induction false} SiblingsKeepApart(
    c: Codec, env: Env, env': Env, s: Session, s': Session, lines: seq<string>, lines': seq<string>, parent: string)
    requires FileOf(c, env, lines, parent) && s.id == env.fallback && s.parent.None?
    requires FileOf(c, env', lines', parent) && s'.id == env'.fallback && s'.parent.None?
    requires env.basename != env'.basename
    requires CarriesUnclaimed(c, env.source, lines) && CarriesUnclaimed(c, env'.source, lines')
    ensures var r, r' := ParseLines(c, env, Parsed(s, []), 0, lines), ParseLines(c, env', Parsed(s', []), 0, lines');
      r.Some? && r'.Some? ==> r.value.session.id != r'.value.session.id
  {
    SubagentIdentity(c, env, s, lines, parent);
    SubagentIdentity(c, env', s', lines', parent);
    OwnIdsDiffer(parent, env, env');
  }

  /** The metadata gives a file of either name the same id. */
  ghost predicate NamesBoth(c: Codec, source: Source, lines: seq<string>, name: string, name': string) {
    NamedId(c, source, lines, name) == NamedId(c, source, lines, name')
  }

  /** Two subagents of one parent with the same lines share an identity exactly when no id is carried
      before the first claim of an ancestor and the metadata names both files the same. */
  lemma {:induction false} SameLinesCollideExactly(
    c: Codec, env: Env, env': Env, s: Session, s': Session, lines: seq<string>, parent: string)
    requires FileOf(c, env, lines, parent) && s.id == env.fallback && s.parent.None?
    requires FileOf(c, env', lines, parent) && s'.id == env'.fallback && s'.parent.None?
    requires env.basename != env'.basename && env.source == env'.source
    ensures var r, r' := ParseLines(c, env, Parsed(s, []), 0, lines), ParseLines(c, env', Parsed(s', []), 0, lines);
      r.Some? && r'.Some? ==>
        (r.value.session.id == r'.value.session.id <==>
          !CarriesUnclaimed(c, env.source, lines) && NamesBoth(c, env.source, lines, env.fallback, env'.fallback))
  {
    SubagentIdentity(c, env, s, lines, parent);
    SubagentIdentity(c, env', s', lines, parent);
    OwnIdsDiffer(parent, env, env');
  }

  // ----- two files that collide

  const CLAIM: Payload := map["forked_from_id" := Str("old"), "id" := Str("other")]
  const MESSAGE: Payload :=
    map["type" := Str("user"), "sessionId" := Str("main"), "message" := Object([Field("content", Str("hello"))])]

  function TwoLines(): Codec {
    Codec(line => if line == "c" then Some(CLAIM) else if line == "m" then Some(MESSAGE) else None, _ => None)
  }

  function Subagent(name: string): Env { Env(ClaudeCode, name, name, true) }

  lemma {:induction false} ClaimLine()
    ensures var row := RowOf(TwoLines(), ClaudeCode, "c");
      CarriedId(row).None? && Claimed(row) == Some("old") && Named(row) == Some("other")
  {
    assert Trim("c") == "c";
    assert StringField(CLAIM, "forked_from_id") == Some("old");
  }

  lemma {:induction false} MessageLine()
    ensures var row := RowOf(TwoLines(), ClaudeCode, "m"); CarriedId(row) == Some("main") && RowItem(row).Some?
  {
    assert Trim("m") == "m";
    assert ReadLine(TwoLines(), "m") == Some(Some(MESSAGE));
    var message := AsMap(MESSAGE["message"].fields);
    assert [Field("content", Str("hello"))][..0] == [];
    assert message == map["content" := Str("hello")];
    assert StringField(MESSAGE, "type") == Some("user");
    assert ObjectField(MESSAGE, "message") == Some(message);
  }

  /** The claim and then a message of the parent: two files of different names with these lines get
      one id, which is not that of either. */
  lemma {:induction false} ClaimedAncestorHidesSubagent(s: Session, s': Session)
    requires s.id == "agent-a" && s'.id == "agent-b" && s.parent.None? && s'.parent.None?
    ensures var c, a, b, lines := TwoLines(), Subagent("agent-a"), Subagent("agent-b"), ["c", "m"];
      var r, r' := ParseLines(c, a, Parsed(s, []), 0, lines), ParseLines(c, b, Parsed(s', []), 0, lines);
      && FileOf(c, a, lines, "main") && FileOf(c, b, lines, "main")
      && r.Some? && r'.Some? && r.value.items != []
      && r.value.session.id == r'.value.session.id == "other"
  {
    var c, a, b := TwoLines(), Subagent("agent-a"), Subagent("agent-b");
    ClaimLine();
    MessageLine();
    TwoLinesParse(a, s);
    TwoLinesParse(b, s');
    SubagentIdentity(c, a, s, ["c", "m"], "main");
    SubagentIdentity(c, b, s', ["c", "m"], "main");
  }

  lemma {:induction false} TwoLinesParse(env: Env, s: Session)
    requires env.source == ClaudeCode
    ensures var r := ParseLines(TwoLines(), env, Parsed(s, []), 0, ["c", "m"]);
      && r.Some? && r.value.items != []
      && !CarriesUnclaimed(TwoLines(), ClaudeCode, ["c", "m"])
      && (env.fallback != "other" ==> NamedId(TwoLines(), ClaudeCode, ["c", "m"], env.fallback) == "other")
  {
    var c, p := TwoLines(), Parsed(s, []);
    ClaimLine();
    MessageLine();
    assert ["c", "m"][1..] == ["m"] && ["m"][1..] == [];
    var p1 := ParseLine(c, env, p, 0, "c").value;
    var p2 := ParseLine(c, env, p1, 0, "m").value;
    assert ParseLines(c, env, p1, 0, ["m"]) == ParseLines(c, env, p2, 0, []) == Some(p2);
  }
}
