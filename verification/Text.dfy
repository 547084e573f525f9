/** Strings as the transcript reader treats them: white space, lower case, lines. */
module Text {
  predicate IsSpace(c: char) {
    c == ' ' || c == '\t' || c == '\n' || c == '\r' || c == '\U{000B}' || c == '\U{000C}'
  }

  predicate Blank(s: string) { forall c :: c in s ==> IsSpace(c) }

  function TrimLeft(s: string): string {
    if s != "" && IsSpace(s[0]) then TrimLeft(s[1..]) else s
  }

  function TrimRight(s: string): string {
    if s != "" && IsSpace(s[|s| - 1]) then TrimRight(s[..|s| - 1]) else s
  }

  function Trim(s: string): string { TrimRight(TrimLeft(s)) }

  function LowerChar(c: char): char {
    if 'A' <= c <= 'Z' then c - 'A' + 'a' else c
  }

  function Lower(s: string): string { seq(|s|, i requires 0 <= i < |s| => LowerChar(s[i])) }

  /** Cuts at every newline; what follows the last newline is a line too, perhaps an empty one. */
  function Lines(s: string): (ls: seq<string>)
    ensures ls != []
  {
    if s == "" then [""]
    else
      var rest := Lines(s[1..]);
      if s[0] == '\n' then [""] + rest else [[s[0]] + rest[0]] + rest[1..]
  }

  /** The text ends where a line ends. */
  predicate AtBoundary(s: string) { s == "" || s[|s| - 1] == '\n' }

  // ----- lines of a concatenation

  /** The last line of the one and the first line of the other run together. */
  function Weld(la: seq<string>, lb: seq<string>): (ls: seq<string>)
    requires la != [] && lb != []
    ensures ls != []
  {
    la[..|la| - 1] + [la[|la| - 1] + lb[0]] + lb[1..]
  }

  lemma {:induction false} WeldAfterNewline(la: seq<string>, lb: seq<string>)
    requires la != [] && lb != []
    ensures Weld([""] + la, lb) == [""] + Weld(la, lb)
  {
    assert ([""] + la)[..|la|] == [""] + la[..|la| - 1];
  }

  lemma {:induction false} WeldAfterChar(c: char, la: seq<string>, lb: seq<string>)
    requires la != [] && lb != []
    ensures var w := Weld(la, lb); Weld([[c] + la[0]] + la[1..], lb) == [[c] + w[0]] + w[1..]
  {
    var w, ext := Weld(la, lb), [[c] + la[0]] + la[1..];
    var left, right := Weld(ext, lb), [[c] + w[0]] + w[1..];
    if |la| == 1 {
      assert ([c] + la[0]) + lb[0] == [c] + (la[0] + lb[0]);
    } else {
      assert ext[..|ext| - 1] == [[c] + la[0]] + la[1..|la| - 1];
      assert w == [la[0]] + la[1..|la| - 1] + [la[|la| - 1] + lb[0]] + lb[1..];
    }
    assert left == right;
  }

  lemma {:induction false} LinesOfConcat(a: string, b: string)
    ensures Lines(a + b) == Weld(Lines(a), Lines(b))
  {
    if a == "" {
      assert a + b == b;
      assert [""][0] + Lines(b)[0] == Lines(b)[0];
    } else {
      LinesOfConcat(a[1..], b);
      assert (a + b)[1..] == a[1..] + b;
      if a[0] == '\n' {
        WeldAfterNewline(Lines(a[1..]), Lines(b));
      } else {
        WeldAfterChar(a[0], Lines(a[1..]), Lines(b));
      }
    }
  }

  lemma {:induction false} BoundaryEndsEmpty(s: string)
    requires AtBoundary(s)
    ensures var ls := Lines(s); ls[|ls| - 1] == ""
  {
    if s != "" {
      BoundaryEndsEmpty'(s);
    }
  }

  lemma {:induction false} BoundaryEndsEmpty'(s: string)
    requires s != "" && s[|s| - 1] == '\n'
    ensures var ls := Lines(s); |ls| >= 2 && ls[|ls| - 1] == ""
  {
    if |s| == 1 {
      assert Lines(s[1..]) == [""];
    } else {
      BoundaryEndsEmpty'(s[1..]);
    }
  }

  lemma {:induction false} WeldEmpty(la: seq<string>, lb: seq<string>)
    requires la != [] && lb != [] && la[|la| - 1] == ""
    ensures var xs := la[..|la| - 1]; la == xs + [""] && Weld(la, lb) == xs + lb
  {
    assert "" + lb[0] == lb[0];
    assert [lb[0]] + lb[1..] == lb;
  }

  /** At a boundary nothing runs together. */
  lemma {:induction false} LinesAtBoundary(a: string, b: string) returns (xs: seq<string>)
    requires AtBoundary(a)
    ensures Lines(a) == xs + [""] && Lines(a + b) == xs + Lines(b)
  {
    xs := Lines(a)[..|Lines(a)| - 1];
    LinesOfConcat(a, b);
    BoundaryEndsEmpty(a);
    WeldEmpty(Lines(a), Lines(b));
  }

  // ----- white space

  lemma {:induction false} TrimLeftBlank(s: string, t: string)
    requires Blank(s)
    ensures TrimLeft(s + t) == TrimLeft(t)
  {
    if s == "" {
      assert s + t == t;
    } else {
      assert (s + t)[1..] == s[1..] + t;
      TrimLeftBlank(s[1..], t);
    }
  }

  lemma {:induction false} TrimRightBlank(s: string, t: string)
    requires Blank(t)
    ensures TrimRight(s + t) == TrimRight(s)
  {
    if t == "" {
      assert s + t == s;
    } else {
      var n := |t| - 1;
      assert (s + t)[..|s + t| - 1] == s + t[..n];
      assert IsSpace(t[n]);
      TrimRightBlank(s, t[..n]);
    }
  }

  /** Trimming on the left finds the first character that is not white space. */
  lemma {:induction false} TrimLeftSplits(s: string, t: string)
    requires !Blank(s)
    ensures TrimLeft(s) != "" && TrimLeft(s + t) == TrimLeft(s) + t
  {
    if IsSpace(s[0]) {
      assert (s + t)[1..] == s[1..] + t;
      assert !Blank(s[1..]) by {
        var c :| c in s && !IsSpace(c);
        assert c in s[1..];
      }
      TrimLeftSplits(s[1..], t);
    }
  }

  lemma {:induction false} TrimBlank(s: string)
    ensures Blank(s) <==> Trim(s) == ""
  {
    if Blank(s) {
      TrimLeftBlank(s, "");
      assert s + "" == s;
    } else {
      TrimLeftSplits(s, "");
      assert s + "" == s;
      FirstIsNotSpace(s);
      KeepsFirst(TrimLeft(s));
    }
  }

  lemma {:induction false} FirstIsNotSpace(s: string)
    requires TrimLeft(s) != ""
    ensures !IsSpace(TrimLeft(s)[0])
  {
    if s != "" && IsSpace(s[0]) {
      FirstIsNotSpace(s[1..]);
    }
  }

  lemma {:induction false} KeepsFirst(s: string)
    requires s != "" && !IsSpace(s[0])
    ensures TrimRight(s) != ""
  {
    if IsSpace(s[|s| - 1]) {
      KeepsFirst(s[..|s| - 1]);
    }
  }

  lemma {:induction false} TrimBlankPrefix(s: string, t: string)
    requires Blank(s)
    ensures Trim(s + t) == Trim(t)
  {
    TrimLeftBlank(s, t);
  }

  lemma {:induction false} TrimBlankSuffix(s: string, t: string)
    requires Blank(t)
    ensures Trim(s + t) == Trim(s)
  {
    if Blank(s) {
      TrimLeftBlank(s, t);
      TrimLeftBlank(t, "");
      assert t + "" == t;
      TrimLeftBlank(s, "");
      assert s + "" == s;
    } else {
      TrimLeftSplits(s, t);
      TrimRightBlank(TrimLeft(s), t);
    }
  }
}
