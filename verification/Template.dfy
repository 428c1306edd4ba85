/** Template sources and what the template engine makes of them (render/page.go, with text/template). */
module Templates {
  import opened Common

  const LBRACE: byte := 123
  const RBRACE: byte := 125
  const PERIOD: byte := 46
  const QUOTE: byte := 39

  /** A parsed template: bytes of text and placeholders. */
  datatype Piece = Lit(c: byte) | Ref(key: Bytes)
  type Template = seq<Piece>

  /**
   What the parser makes of a source: pieces when its actions are placeholders `{{.key}}`; a syntax error; or a
   source with other actions, whose meaning is left to the template engine.
   */
  datatype Compiled = Plain(pieces: Template) | Malformed | Other

  predicate KeyByte(b: byte) {
    b == 95 || 48 <= b <= 57 || 65 <= b <= 90 || 97 <= b <= 122
  }

  /** The underscore, ten digits, and the letters of both cases. */
  lemma KeyBytesAre(b: byte)
    ensures KeyByte(b) <==>
      || b == 95 || b in {48, 49, 50, 51, 52, 53, 54, 55, 56, 57}
      || 65 <= b < 65 + 26 || 97 <= b < 97 + 26
  {
  }

  /** The number of key bytes in front. */
  function KeyLength(s: Bytes): (n: nat)
    ensures n <= |s| && (n < |s| ==> !KeyByte(s[n]))
    ensures forall i :: 0 <= i < n ==> KeyByte(s[i])
  {
    if s == [] || !KeyByte(s[0]) then 0 else 1 + KeyLength(s[1..])
  }

  /** The source begins with an action. */
  predicate Opens(s: Bytes) {
    |s| >= 2 && s[0] == LBRACE && s[1] == LBRACE
  }

  /** The byte twice in a row, somewhere. */
  predicate Doubled(s: Bytes, c: byte) {
    |s| >= 2 && ((s[0] == c && s[1] == c) || Doubled(s[1..], c))
  }

  /** The length of a placeholder `{{.key}}` in front; 0 when there is none. */
  function PlaceholderLength(s: Bytes): (n: nat)
    ensures n <= |s| && (n > 0 ==> n > 5 && Opens(s))
  {
    if !Opens(s) || |s| < 3 || s[2] != PERIOD then 0
    else
      var n := KeyLength(s[3..]);
      if n == 0 || 48 <= s[3] <= 57 || |s| < n + 5 || s[n + 3] != RBRACE || s[n + 4] != RBRACE then 0 else n + 5
  }

  /** An action that cannot be read: it is not closed, or begins with a quote at the end of a line. */
  predicate Broken(s: Bytes)
    requires Opens(s)
  {
    !Doubled(s[2..], RBRACE) || (|s| >= 4 && s[2] == QUOTE && s[3] == LF)
  }

  function PiecesAhead(t: Template, c: Compiled): Compiled {
    if c.Plain? then Plain(t + c.pieces) else c
  }

  function Compile(s: Bytes): Compiled
    decreases |s|
  {
    if s == [] then Plain([])
    else if !Opens(s) then PiecesAhead([Lit(s[0])], Compile(s[1..]))
    else
      var n := PlaceholderLength(s);
      if n > 0 then PiecesAhead([Ref(s[3..n - 2])], Compile(s[n..]))
      else if Broken(s) then Malformed
      else Other
  }

  /** Template execution; None when a placeholder has no value. */
  function Execute(t: Template, values: map<Bytes, Bytes>): (r: Option<Bytes>)
    ensures r.Some? <==> forall i :: 0 <= i < |t| && t[i].Ref? ==> t[i].key in values
  {
    if t == [] then Some([])
    else
      var rest := Execute(t[1..], values);
      assert t == [t[0]] + t[1..];
      if t[0].Ref? && t[0].key !in values then None
      else
        var head := if t[0].Lit? then [t[0].c] else values[t[0].key];
        if rest.None? then
          assert exists i :: 0 <= i < |t[1..]| && t[1..][i].Ref? && t[1..][i].key !in values;
          None
        else Some(head + rest.value)
  }

  /** The number of placeholders for `key`. */
  function Occurrences(t: Template, key: Bytes): nat {
    if t == [] then 0 else (if t[0] == Ref(key) then 1 else 0) + Occurrences(t[1..], key)
  }

  // ----- sources one behind the other -----

  lemma {:induction false} ExecuteAppend(t: Template, u: Template, values: map<Bytes, Bytes>)
    ensures Execute(t + u, values) ==
      if Execute(t, values).None? || Execute(u, values).None? then None
      else Some(Execute(t, values).value + Execute(u, values).value)
  {
    if t == [] {
      assert t + u == u;
      if Execute(u, values).Some? {
        assert [] + Execute(u, values).value == Execute(u, values).value;
      }
    } else {
      assert (t + u)[0] == t[0] && (t + u)[1..] == t[1..] + u;
      ExecuteAppend(t[1..], u, values);
      if Execute(t, values).Some? && Execute(u, values).Some? {
        var head := if t[0].Lit? then [t[0].c] else values[t[0].key];
        assert head + (Execute(t[1..], values).value + Execute(u, values).value)
            == (head + Execute(t[1..], values).value) + Execute(u, values).value;
      }
    }
  }

  lemma AheadTwice(t: Template, u: Template, c: Compiled)
    ensures PiecesAhead(t, PiecesAhead(u, c)) == PiecesAhead(t + u, c)
  {
    if c.Plain? {
      assert t + (u + c.pieces) == (t + u) + c.pieces;
    }
  }

  lemma {:induction false} KeyLengthStops(s: Bytes, t: Bytes)
    requires KeyLength(s) < |s|
    ensures KeyLength(s + t) == KeyLength(s)
  {
    assert (s + t)[0] == s[0] && (s + t)[1..] == s[1..] + t;
    if KeyByte(s[0]) {
      KeyLengthStops(s[1..], t);
    }
  }

  /** A placeholder stays one whatever follows. */
  lemma PlaceholderStays(s: Bytes, t: Bytes)
    requires PlaceholderLength(s) > 0
    ensures PlaceholderLength(s + t) == PlaceholderLength(s)
  {
    var n := KeyLength(s[3..]);
    assert (s + t)[3..] == s[3..] + t;
    KeyLengthStops(s[3..], t);
    assert forall i :: 0 <= i < n + 5 ==> (s + t)[i] == s[i];
  }

  /**
   A source that compiles by itself is compiled as before when a line follows it: LF keeps its last byte apart
   from the next line.
   */
  lemma {:induction false} CompileLine(e: Bytes, t: Bytes)
    requires Compile(e).Plain?
    ensures Compile(e + [LF] + t) == PiecesAhead(Compile(e).pieces + [Lit(LF)], Compile(t))
    decreases |e|
  {
    hide *;
    if e == [] {
      LineAlone(t);
    } else {
      FirstPiece(e);
      FirstPieceOfLine(e, t);
      AheadIsPlain(FirstOf(e), Compile(e[PieceLength(e)..]));
      CompileLine(e[PieceLength(e)..], t);
      CompiledLine(FirstOf(e), Compile(e[PieceLength(e)..]).pieces, Compile(t));
    }
  }

  lemma LineAlone(t: Bytes)
    ensures Compile([]) == Plain([]) && Compile([] + [LF] + t) == PiecesAhead([] + [Lit(LF)], Compile(t))
  {
    var s: Bytes := [] + [LF] + t;
    assert s[0] == LF && s[1..] == t;
    assert [] + [Lit(LF)] == [Lit(LF)];
  }

  /** The first piece of a source without other actions, and its length. */
  function PieceLength(s: Bytes): (n: nat)
    requires s != []
    ensures 0 < n <= |s|
  {
    if PlaceholderLength(s) > 0 then PlaceholderLength(s) else 1
  }

  function FirstOf(s: Bytes): Piece
    requires s != []
  {
    var n := PlaceholderLength(s);
    if n > 0 then Ref(s[3..n - 2]) else Lit(s[0])
  }

  lemma FirstPiece(s: Bytes)
    requires s != [] && Compile(s).Plain?
    ensures Compile(s) == PiecesAhead([FirstOf(s)], Compile(s[PieceLength(s)..])) && (Opens(s) ==> PlaceholderLength(s) > 0)
  {
    hide PlaceholderLength;
  }

  lemma AheadIsPlain(p: Piece, c: Compiled)
    ensures PiecesAhead([p], c).Plain? ==> c.Plain? && PiecesAhead([p], c).pieces == [p] + c.pieces
  {
  }

  /** A line behind a source leaves its first piece alone. */
  lemma FirstPieceOfLine(e: Bytes, t: Bytes)
    requires e != [] && (Opens(e) ==> PlaceholderLength(e) > 0)
    ensures var s, n := e + [LF] + t, PieceLength(e);
      Compile(s) == PiecesAhead([FirstOf(e)], Compile(e[n..] + [LF] + t))
  {
    var s, n := e + [LF] + t, PieceLength(e);
    assert s[n..] == e[n..] + [LF] + t;
    if PlaceholderLength(e) > 0 {
      assert s == e + ([LF] + t);
      PlaceholderStays(e, [LF] + t);
      assert s[3..n - 2] == e[3..n - 2];
    } else {
      NoPlaceholder(e, s);
    }
    hide PlaceholderLength;
  }

  lemma NoPlaceholder(e: Bytes, s: Bytes)
    requires e != [] && !Opens(e) && |e| < |s| && s[0] == e[0] && (|e| > 1 ==> s[1] == e[1]) && (|e| == 1 ==> s[1] == LF)
    ensures !Opens(s) && PlaceholderLength(s) == 0 && PlaceholderLength(e) == 0
  {
  }

  lemma CompiledLine(p: Piece, t: Template, c: Compiled)
    ensures PiecesAhead([p], PiecesAhead(t + [Lit(LF)], c)) == PiecesAhead([p] + t + [Lit(LF)], c)
  {
    AheadTwice([p], t + [Lit(LF)], c);
    assert [p] + (t + [Lit(LF)]) == [p] + t + [Lit(LF)];
  }

  /** The bytes of a text as pieces. */
  function Lits(s: Bytes): Template {
    if s == [] then [] else [Lit(s[0])] + Lits(s[1..])
  }

  lemma {:induction false} ExecuteLits(s: Bytes, values: map<Bytes, Bytes>)
    ensures Execute(Lits(s), values) == Some(s)
  {
    if s != [] {
      assert Lits(s)[1..] == Lits(s[1..]);
      ExecuteLits(s[1..], values);
      assert [s[0]] + s[1..] == s;
    }
  }

  /** Text in front of a source is literal up to the first `{{`. */
  lemma {:induction false} CompileText(a: Bytes, s: Bytes)
    requires !Doubled(a, LBRACE) && (a == [] || s == [] || a[|a| - 1] != LBRACE || s[0] != LBRACE)
    ensures Compile(a + s) == PiecesAhead(Lits(a), Compile(s))
  {
    if a == [] {
      assert a + s == s;
      AheadNone(Compile(s));
    } else {
      assert (a + s)[0] == a[0] && (a + s)[1..] == a[1..] + s;
      CompileText(a[1..], s);
      AheadTwice([Lit(a[0])], Lits(a[1..]), Compile(s));
    }
  }

  lemma AheadNone(c: Compiled)
    ensures PiecesAhead([], c) == c
  {
    if c.Plain? {
      assert [] + c.pieces == c.pieces;
    }
  }

  /** A source is literal exactly when there is no `{{` in it. */
  lemma {:induction false} LiteralIff(s: Bytes)
    ensures Compile(s) == Plain(Lits(s)) <==> !Doubled(s, LBRACE)
    decreases |s|
  {
    if s != [] {
      LiteralIff(s[1..]);
      LitsFirst(s);
      if !Opens(s) && Compile(s[1..]).Plain? {
        assert Compile(s).pieces[1..] == Compile(s[1..]).pieces;
      }
    }
  }

  lemma LitsFirst(s: Bytes)
    requires s != []
    ensures Lits(s) != [] && Lits(s)[0] == Lit(s[0]) && Lits(s)[1..] == Lits(s[1..])
  {
  }

  // ----- actions inside a text -----

  const OPENING: Bytes := [LBRACE, LBRACE]

  /** `{{.key}}` */
  function Placeholder(key: Bytes): Bytes {
    OPENING + [PERIOD] + key + [RBRACE, RBRACE]
  }

  /** A text that is not continued by `{{`: what follows begins a new action. */
  predicate Apart(a: Bytes) {
    !Doubled(a, LBRACE) && (a != [] ==> a[|a| - 1] != LBRACE)
  }

  predicate FieldName(key: Bytes) {
    key != [] && !(48 <= key[0] <= 57) && forall i :: 0 <= i < |key| ==> KeyByte(key[i])
  }

  lemma {:induction false} KeyLengthIs(key: Bytes, rest: Bytes)
    requires forall i :: 0 <= i < |key| ==> KeyByte(key[i])
    requires rest != [] && !KeyByte(rest[0])
    ensures KeyLength(key + rest) == |key|
  {
    if key == [] {
      assert key + rest == rest;
    } else {
      assert (key + rest)[0] == key[0] && (key + rest)[1..] == key[1..] + rest;
      KeyLengthIs(key[1..], rest);
    }
  }

  lemma PlaceholderCompiles(key: Bytes, rest: Bytes)
    requires FieldName(key)
    ensures Compile(Placeholder(key) + rest) == PiecesAhead([Ref(key)], Compile(rest))
  {
    var s := Placeholder(key) + rest;
    assert s[3..] == key + ([RBRACE, RBRACE] + rest);
    KeyLengthIs(key, [RBRACE, RBRACE] + rest);
    assert s[3..][0] == key[0];
    assert PlaceholderLength(s) == |key| + 5;
    assert s[3..|key| + 3] == key && s[|key| + 5..] == rest;
  }

  /** A quote at the end of a line, behind `{{`, breaks the whole source. */
  lemma QuoteBreaks(a: Bytes, rest: Bytes)
    requires Apart(a) && (rest == [] || rest[0] == LF)
    ensures Compile(a + (OPENING + [QUOTE] + rest)) == Malformed
  {
    var s := OPENING + [QUOTE] + rest;
    CompileText(a, s);
    assert s[2..] == [QUOTE] + rest;
    if rest == [] {
      assert s[2..] == [QUOTE];
    }
    assert Compile(s) == Malformed;
  }
}
