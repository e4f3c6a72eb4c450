/** Joining regular-expression sources with a separator, renumbering back-references. */
module RegexJoin {
  import opened Wrappers

  // ----- numbers in decimal -----

  predicate IsDigit(c: char) {
    '0' <= c <= '9'
  }

  function Digit(d: nat): char
    requires d < 10
  {
    "0123456789"[d]
  }

  function DigitValue(c: char): (d: nat)
    requires IsDigit(c)
    ensures d < 10
  {
    c as int - '0' as int
  }

  /** `String(n)`. */
  function Decimal(n: nat): string {
    if n < 10 then [Digit(n)] else Decimal(n / 10) + [Digit(n % 10)]
  }

  /** `Number(s)` for a string of digits. */
  function Value(s: string): nat
    requires forall c <- s :: IsDigit(c)
  {
    if s == "" then 0 else 10 * Value(s[..|s| - 1]) + DigitValue(s[|s| - 1])
  }

  lemma DigitRoundTrip(d: nat)
    requires d < 10
    ensures IsDigit(Digit(d)) && DigitValue(Digit(d)) == d
    ensures d > 0 ==> Digit(d) != '0'
  {
  }

  lemma {:induction false} DecimalRoundTrip(n: nat)
    ensures forall c <- Decimal(n) :: IsDigit(c)
    ensures Decimal(n) != "" && Value(Decimal(n)) == n
    ensures n > 0 ==> Decimal(n)[0] != '0'
  {
    if n < 10 {
      DigitRoundTrip(n);
      assert [Digit(n)][..0] == "";
      assert Value([Digit(n)]) == 10 * Value("") + n;
    } else {
      DecimalRoundTrip(n / 10);
      DigitRoundTrip(n % 10);
      var s := Decimal(n);
      assert s[..|s| - 1] == Decimal(n / 10);
    }
  }

  // ----- tokens of a regular-expression source -----

  /** The four alternatives of the scanner, and any other character. */
  datatype Tok =
    | Class(text: string)  // `[...]`
    | Group  // `(`, which captures
    | SpecialGroup  // `(?`, which does not capture
    | NamedGroup  // `(?` of `(?<name>`, which captures, although the scanner takes it for the former
    | Ref(n: nat)  // `\` and a number
    | Escaped(c: char)  // `\` and any other character
    | Plain(c: char)

  predicate LineEnd(c: char) {
    c == '\n' || c == '\r' || c == '\U{2028}' || c == '\U{2029}'
  }

  /** How far a character class extends from its `[`, if it is closed. */
  function ClassLength(s: string): (r: Option<nat>)
    ensures r.Some? ==> r.value <= |s|
  {
    if s == "" then None
    else if s[0] == ']' then Some(1)
    else if s[0] == '\\' then
      if |s| < 2 || LineEnd(s[1]) then None
      else match ClassLength(s[2..]) case None => None case Some(k) => Some(k + 2)
    else match ClassLength(s[1..]) case None => None case Some(k) => Some(k + 1)
  }

  /** What may stand between the brackets of a class: characters other than `\` and `]`, and escapes. */
  predicate ClassBody(s: string) {
    || s == ""
    || (s[0] != '\\' && s[0] != ']' && ClassBody(s[1..]))
    || (s[0] == '\\' && |s| > 1 && !LineEnd(s[1]) && ClassBody(s[2..]))
  }

  /** A class ends at the one `]` that such characters lead up to. */
  lemma {:induction false} ClassIsMatchIff(s: string, k: int)
    ensures ClassLength(s) == Some(k) <==> 0 < k <= |s| && s[k - 1] == ']' && ClassBody(s[..k - 1])
    decreases |s|
  {
    if s == "" || s[0] == ']' {
      if 1 < k <= |s| {
        assert s[..k - 1][0] == s[0];
      }
    } else if s[0] == '\\' {
      if |s| > 1 && !LineEnd(s[1]) {
        ClassIsMatchIff(s[2..], k - 2);
        if 2 < k <= |s| {
          assert s[..k - 1][2..] == s[2..][..k - 3] && s[2..][k - 3] == s[k - 1];
        }
      }
      ShortBodies(s, k);
    } else {
      ClassIsMatchIff(s[1..], k - 1);
      if 1 < k <= |s| {
        assert s[..k - 1][1..] == s[1..][..k - 2] && s[1..][k - 2] == s[k - 1];
      }
    }
  }

  lemma ShortBodies(s: string, k: int)
    requires s != "" && s[0] == '\\'
    ensures k == 1 ==> s[k - 1] != ']'
    ensures 1 < k <= |s| && ClassBody(s[..k - 1]) ==> k > 2 && !LineEnd(s[1])
  {
    if 1 < k <= |s| {
      assert s[..k - 1][0] == '\\';
      if k > 2 {
        assert s[..k - 1][1] == s[1];
      }
    }
  }

  /** Length of the longest run of digits. */
  function DigitRun(s: string): (n: nat)
    ensures n <= |s| && (forall k | 0 <= k < n :: IsDigit(s[k])) && (n < |s| ==> !IsDigit(s[n]))
  {
    if s == "" || !IsDigit(s[0]) then 0 else 1 + DigitRun(s[1..])
  }

  /** What follows `(?` makes it a named group: `<`, unless it is part of `<=` or `<!`. */
  predicate NamesGroup(s: string) {
    s != "" && s[0] == '<' && !(|s| > 1 && (s[1] == '=' || s[1] == '!'))
  }

  /** The token at the start of a non-empty source and its length. */
  function First(s: string): (r: (Tok, nat))
    requires s != ""
    ensures 0 < r.1 <= |s|
  {
    if s[0] == '[' then
      match ClassLength(s[1..])
      case None => (Plain('['), 1)
      case Some(k) => (Class(s[..k + 1]), k + 1)
    else if s[0] == '(' then
      if |s| > 1 && s[1] == '?' then (if NamesGroup(s[2..]) then NamedGroup else SpecialGroup, 2) else (Group, 1)
    else if s[0] == '\\' then
      if |s| > 1 && IsDigit(s[1]) && s[1] != '0' then
        var n := DigitRun(s[1..]);
        (Ref(Value(s[1..n + 1])), n + 1)
      else if |s| > 1 && !LineEnd(s[1]) then (Escaped(s[1]), 2)
      else (Plain('\\'), 1)
    else (Plain(s[0]), 1)
  }

  function Tokens(s: string): seq<Tok> {
    if s == "" then [] else [First(s).0] + Tokens(s[First(s).1..])
  }

  function Source(t: Tok): string {
    match t
    case Class(text) => text
    case Group => "("
    case SpecialGroup => "(?"
    case NamedGroup => "(?"
    case Ref(n) => "\\" + Decimal(n)
    case Escaped(c) => ['\\', c]
    case Plain(c) => [c]
  }

  function Sources(ts: seq<Tok>): string {
    if ts == [] then "" else Source(ts[0]) + Sources(ts[1..])
  }

  function Shift(t: Tok, offset: nat): Tok {
    if t.Ref? then Ref(t.n + offset) else t
  }

  function ShiftAll(ts: seq<Tok>, offset: nat): seq<Tok> {
    seq(|ts|, k requires 0 <= k < |ts| => Shift(ts[k], offset))
  }

  /** The capture groups that the scanner counts. */
  function Groups(ts: seq<Tok>): nat {
    if ts == [] then 0 else (if ts[0].Group? then 1 else 0) + Groups(ts[1..])
  }

  /** A piece is well formed when every `[` is closed and every `\` escapes something. */
  ghost predicate WellFormed(s: string) {
    forall t <- Tokens(s) :: t != Plain('[') && t != Plain('\\')
  }

  // ----- the join -----

  /** The joined tokens: each piece shifted by the capture groups before it. */
  function Joined(pieces: seq<string>, offset: nat): seq<Tok> {
    if pieces == [] then []
    else
      var ts := Tokens(pieces[0]);
      ShiftAll(ts, offset)
      + (if |pieces| > 1 then [Plain('|')] else [])
      + Joined(pieces[1..], offset + Groups(ts))
  }

  /** The inner loop: copies one piece, token by token, counting groups and shifting references. */
  method CopyPiece(piece: string, before: nat) returns (out: string, groups: nat)
    ensures out == Sources(ShiftAll(Tokens(piece), before))
    ensures groups == Groups(Tokens(piece))
  {
    hide Tokens, Sources, Groups, First, Source, ShiftAll;
    out, groups := "", 0;
    var c := piece;
    ghost var seen: seq<Tok> := [];
    CopyStarts(piece, before);
    while c != ""
      invariant Tokens(piece) == seen + Tokens(c)
      invariant out == Sources(ShiftAll(seen, before)) && groups == Groups(seen)
      decreases |c|
    {
      var (t, n) := First(c);
      CopyStep(piece, seen, c, before);
      if t.Ref? {
        out := out + ("\\" + Decimal(t.n + before));
      } else {
        out := out + c[..n];
        if t.Group? {
          groups := groups + 1;
        }
      }
      seen := seen + [t];
      c := c[n..];
    }
    CopyEnds(piece, seen);
  }

  lemma CopyStarts(piece: string, before: nat)
    ensures [] + Tokens(piece) == Tokens(piece) && Sources(ShiftAll([], before)) == "" && Groups([]) == 0
  {
  }

  lemma CopyEnds(piece: string, seen: seq<Tok>)
    ensures seen + Tokens("") == seen
  {
  }

  lemma CopyStep(piece: string, seen: seq<Tok>, c: string, before: nat)
    requires c != ""
    ensures var (t, n) := First(c);
            && seen + Tokens(c) == seen + [t] + Tokens(c[n..])
            && Sources(ShiftAll(seen + [t], before)) == Sources(ShiftAll(seen, before)) + Source(Shift(t, before))
            && Groups(seen + [t]) == Groups(seen) + (if t.Group? then 1 else 0)
            && (t.Ref? ==> Source(Shift(t, before)) == "\\" + Decimal(t.n + before))
            && (!t.Ref? ==> Source(Shift(t, before)) == c[..n])
  {
    TokensStep(seen, c);
    FirstSource(c);
    var t := First(c).0;
    assert t.Ref? ==> Source(Shift(t, before)) == "\\" + Decimal(t.n + before);
    hide Tokens, First, Sources, Groups, Source, ShiftAll;
    ShiftSnoc(seen, t, before);
    SourcesSnoc(ShiftAll(seen, before), Shift(t, before));
    GroupsSnoc(seen, t);
  }

  lemma TokensStep(seen: seq<Tok>, c: string)
    requires c != ""
    ensures seen + Tokens(c) == seen + [First(c).0] + Tokens(c[First(c).1..])
  {
    hide First;
    var (t, n) := First(c);
    assert Tokens(c) == [t] + Tokens(c[n..]);
    assert seen + ([t] + Tokens(c[n..])) == seen + [t] + Tokens(c[n..]);
  }

  lemma ShiftSnoc(ts: seq<Tok>, t: Tok, offset: nat)
    ensures ShiftAll(ts + [t], offset) == ShiftAll(ts, offset) + [Shift(t, offset)]
  {
  }

  /** What is left to write before piece `k`, when `groups` capture groups came before it. */
  function Remaining(pieces: seq<string>, k: nat, groups: nat): string
    requires k <= |pieces|
  {
    (if 0 < k < |pieces| then "|" else "") + Sources(Joined(pieces[k..], groups))
  }

  /** The join function inside the compiler. */
  method Join(pieces: seq<string>) returns (out: string)
    ensures out == Sources(Joined(pieces, 0))
  {
    hide Remaining, Joined, Sources, Tokens, Groups;
    out := "";
    var groups: nat := 0;
    var k := 0;
    RemainingAtStart(pieces);
    while k < |pieces|
      invariant 0 <= k <= |pieces|
      invariant Sources(Joined(pieces, 0)) == out + Remaining(pieces, k, groups)
    {
      RemainingStep(pieces, k, groups, out);
      if k > 0 {
        out := out + "|";
      }
      var copy, more := CopyPiece(pieces[k], groups);
      out := out + copy;
      groups := groups + more;
      k := k + 1;
    }
    RemainingAtEnd(pieces, groups, out);
  }

  lemma RemainingAtStart(pieces: seq<string>)
    ensures "" + Remaining(pieces, 0, 0) == Sources(Joined(pieces, 0))
  {
    assert pieces[0..] == pieces;
  }

  lemma RemainingAtEnd(pieces: seq<string>, groups: nat, out: string)
    ensures out + Remaining(pieces, |pieces|, groups) == out
  {
  }

  lemma RemainingStep(pieces: seq<string>, k: nat, groups: nat, out: string)
    requires k < |pieces|
    ensures var ts := Tokens(pieces[k]);
            out + Remaining(pieces, k, groups)
            == (if k > 0 then out + "|" else out) + Sources(ShiftAll(ts, groups))
                + Remaining(pieces, k + 1, groups + Groups(ts))
  {
    hide Sources, Tokens, Groups, ShiftAll;
    var ts := Tokens(pieces[k]);
    var rest := Joined(pieces[k + 1..], groups + Groups(ts));
    var bar := if k + 1 < |pieces| then [Plain('|')] else [];
    assert pieces[k..][0] == pieces[k] && pieces[k..][1..] == pieces[k + 1..];
    assert Joined(pieces[k..], groups) == ShiftAll(ts, groups) + bar + rest;
    hide Joined;
    SourcesConcat(ShiftAll(ts, groups) + bar, rest);
    SourcesConcat(ShiftAll(ts, groups), bar);
    SourcesOne(Plain('|'));
    SourcesNone();
    Regroup(out, if k > 0 then "|" else "", Sources(ShiftAll(ts, groups)), Sources(bar), Sources(rest));
  }

  lemma SourcesNone()
    ensures Sources([]) == ""
  {
  }

  lemma Regroup(out: string, bar: string, a: string, b: string, c: string)
    ensures out + (bar + (a + b + c)) == out + bar + a + (b + c)
    ensures bar == "" ==> out + bar == out
  {
  }

  lemma {:induction false} SourcesConcat(a: seq<Tok>, b: seq<Tok>)
    ensures Sources(a + b) == Sources(a) + Sources(b)
  {
    if a == [] {
      assert a + b == b;
    } else {
      assert (a + b)[1..] == a[1..] + b;
      SourcesConcat(a[1..], b);
      assert Source(a[0]) + (Sources(a[1..]) + Sources(b)) == Source(a[0]) + Sources(a[1..]) + Sources(b);
    }
  }

  lemma SourcesOne(t: Tok)
    ensures Sources([t]) == Source(t)
  {
    assert [t][1..] == [];
    assert Source(t) + "" == Source(t);
  }

  lemma SourcesSnoc(ts: seq<Tok>, t: Tok)
    ensures Sources(ts + [t]) == Sources(ts) + Source(t)
  {
    SourcesConcat(ts, [t]);
    SourcesOne(t);
  }

  lemma {:induction false} GroupsConcat(a: seq<Tok>, b: seq<Tok>)
    ensures Groups(a + b) == Groups(a) + Groups(b)
  {
    if a == [] {
      assert a + b == b;
    } else {
      assert (a + b)[1..] == a[1..] + b;
      GroupsConcat(a[1..], b);
    }
  }

  lemma GroupsSnoc(ts: seq<Tok>, t: Tok)
    ensures Groups(ts + [t]) == Groups(ts) + if t.Group? then 1 else 0
  {
    GroupsConcat(ts, [t]);
    assert [t][1..] == [];
  }

  /** A token other than a reference is written as it was read. */
  lemma FirstSource(s: string)
    requires s != ""
    ensures !First(s).0.Ref? ==> Source(First(s).0) == s[..First(s).1]
  {
  }

  // ----- reading the joined source back -----

  /** The text after a copied piece: nothing, or the separator. */
  predicate Stops(rest: string) {
    rest == "" || rest[0] == '|'
  }

  lemma {:induction false} ClassLengthPrefix(s: string, rest: string)
    requires ClassLength(s).Some?
    ensures var k := ClassLength(s).value; ClassLength(s[..k] + rest) == Some(k)
    decreases |s|
  {
    var k := ClassLength(s).value;
    var s' := s[..k] + rest;
    if s[0] == ']' {
    } else if s[0] == '\\' {
      ClassLengthPrefix(s[2..], rest);
      assert s'[2..] == s[2..][..k - 2] + rest;
    } else {
      ClassLengthPrefix(s[1..], rest);
      assert s'[1..] == s[1..][..k - 1] + rest;
    }
  }

  lemma {:induction false} DigitRunPrefix(s: string, rest: string)
    requires forall c <- s :: IsDigit(c)
    requires rest != "" ==> !IsDigit(rest[0])
    ensures DigitRun(s + rest) == |s|
  {
    if s == "" {
      assert s + rest == rest;
    } else {
      assert (s + rest)[1..] == s[1..] + rest;
      DigitRunPrefix(s[1..], rest);
    }
  }

  lemma {:induction false} ValuePositive(s: string)
    requires s != "" && (forall c <- s :: IsDigit(c)) && s[0] != '0'
    ensures Value(s) > 0
  {
    if |s| == 1 {
      assert Value(s[..0]) == 0 && DigitValue(s[0]) > 0;
    } else {
      ValuePositive(s[..|s| - 1]);
    }
  }

  /** A copied piece starts with the character it was copied from. */
  lemma HeadKept(d: string, before: nat)
    ensures d == "" ==> Sources(ShiftAll(Tokens(d), before)) == ""
    ensures d != "" ==> Sources(ShiftAll(Tokens(d), before)) != "" && Sources(ShiftAll(Tokens(d), before))[0] == d[0]
  {
    if d != "" {
      var t := First(d).0;
      FirstSource(d);
      SourcesOfPiece(d, before);
      assert Source(Shift(t, before))[0] == d[0];
    }
  }

  lemma SourcesOfPiece(c: string, before: nat)
    requires c != ""
    ensures Sources(ShiftAll(Tokens(c), before))
         == Source(Shift(First(c).0, before)) + Sources(ShiftAll(Tokens(c[First(c).1..]), before))
  {
    hide First, Source;
    var (t, n) := First(c);
    var rest := Tokens(c[n..]);
    assert Tokens(c) == [t] + rest;
    assert ShiftAll([t] + rest, before) == [Shift(t, before)] + ShiftAll(rest, before);
    SourcesConcat([Shift(t, before)], ShiftAll(rest, before));
    SourcesOne(Shift(t, before));
  }

  /** What follows a token does not change how it is read: an unclosed `[` finds no `]`, and a `\`
      nothing to escape. */
  predicate Stays(t: Tok, tail: string) {
    && (t == Plain('[') ==> ClassLength(tail) == None)
    && (t == Plain('\\') ==> tail == "" || LineEnd(tail[0]))
  }

  /** `tail` starts as a copy of the text `d` that followed in the piece, or as what follows a piece. */
  predicate Resembles(d: string, tail: string) {
    && (if d == "" then Stops(tail) else tail != "" && tail[0] == d[0])
    && (NamesGroup(d) <==> NamesGroup(tail))
  }

  /** The first token of a copied piece is read back if and only if what follows leaves it alone. */
  lemma FirstReadBackIff(c: string, before: nat, tail: string)
    requires c != "" && Resembles(c[First(c).1..], tail)
    ensures var t := Shift(First(c).0, before);
            && (First(Source(t) + tail).0 == t <==> Stays(First(c).0, tail))
            && (Stays(First(c).0, tail) ==> First(Source(t) + tail) == (t, |Source(t)|))
  {
    var (t, n) := First(c);
    match t
    case Class(text) => ClassReadBack(c, n, tail);
    case Ref(m) =>
      ValuePositive(c[1..n]);
      if n < |c| {
        assert c[1..][n - 1] == c[n];
      }
      RefReadBack(m + before, tail);
    case _ => OtherReadBackIff(c, tail);
  }

  lemma ClassReadBack(c: string, n: nat, tail: string)
    requires c != "" && c[0] == '[' && ClassLength(c[1..]).Some? && n == 1 + ClassLength(c[1..]).value
    ensures First(c[..n] + tail) == (Class(c[..n]), n)
  {
    ClassLengthPrefix(c[1..], tail);
    var s := c[..n] + tail;
    assert s[1..] == c[1..][..n - 1] + tail;
    assert s[..n] == c[..n];
  }

  lemma RefReadBack(m: nat, tail: string)
    requires m > 0 && (tail != "" ==> !IsDigit(tail[0]))
    ensures First("\\" + Decimal(m) + tail) == (Ref(m), 1 + |Decimal(m)|)
  {
    hide Decimal;
    DecimalRoundTrip(m);
    var s := "\\" + Decimal(m) + tail;
    assert s[1..] == Decimal(m) + tail;
    DigitRunPrefix(Decimal(m), tail);
    assert s[1..|Decimal(m)| + 1] == Decimal(m);
    assert s[1] == Decimal(m)[0];
  }

  lemma OtherReadBackIff(c: string, tail: string)
    requires c != "" && !First(c).0.Class? && !First(c).0.Ref? && Resembles(c[First(c).1..], tail)
    ensures var t := First(c).0;
            && (First(Source(t) + tail).0 == t <==> Stays(t, tail))
            && (Stays(t, tail) ==> First(Source(t) + tail) == (t, |Source(t)|))
  {
    var (t, n) := First(c);
    var s := Source(t) + tail;
    match t
    case Group => assert s[0] == '(' && (|s| > 1 ==> s[1] == tail[0]);
    case SpecialGroup => assert s[0] == '(' && s[1] == '?' && s[2..] == tail;
    case NamedGroup => assert s[0] == '(' && s[1] == '?' && s[2..] == tail;
    case Plain(k) => assert s[0] == k && s[1..] == tail;
    case Escaped(e) => assert s[0] == '\\' && s[1] == e;
  }

  /** The copy of a piece, with what follows it, resembles the piece. */
  lemma CopyResembles(d: string, before: nat, rest: string)
    requires Stops(rest)
    ensures Resembles(d, Sources(ShiftAll(Tokens(d), before)) + rest)
  {
    hide Sources, ShiftAll, Tokens, First, Shift, Source;
    HeadKept(d, before);
    var copied := Sources(ShiftAll(Tokens(d), before));
    if d == "" {
      assert copied + rest == rest;
    } else if d[0] == '<' {
      LessThan(d, before);
      var more := Sources(ShiftAll(Tokens(d[1..]), before));
      HeadKept(d[1..], before);
      assert copied + rest == "<" + (more + rest);
      assert |d| > 1 ==> d[1..][0] == d[1];
    }
  }

  lemma LessThan(d: string, before: nat)
    requires d != "" && d[0] == '<'
    ensures Sources(ShiftAll(Tokens(d), before)) == "<" + Sources(ShiftAll(Tokens(d[1..]), before))
  {
    hide Sources, ShiftAll, Tokens;
    SourcesOfPiece(d, before);
  }

  /** Every token of a copied piece is left alone by what follows it. */
  ghost predicate Settled(c: string, before: nat, rest: string)
    decreases |c|
  {
    c == "" ||
    var d := c[First(c).1..];
    Stays(First(c).0, Sources(ShiftAll(Tokens(d), before)) + rest) && Settled(d, before, rest)
  }

  /** Re-reading a copied piece gives its tokens, shifted, exactly when they are left alone. */
  lemma {:induction false} PieceReadBackIff(c: string, before: nat, rest: string, more: seq<Tok>)
    requires Stops(rest)
    ensures Tokens(Sources(ShiftAll(Tokens(c), before)) + rest) == ShiftAll(Tokens(c), before) + more
       <==> Settled(c, before, rest) && Tokens(rest) == more
    decreases |c|
  {
    if c == "" {
      assert Tokens(c) == [] && ShiftAll([], before) == [] && Sources([]) == "" && "" + rest == rest;
      assert [] + more == more;
    } else {
      var d := c[First(c).1..];
      PieceReadBackIff(d, before, rest, more);
      PieceStepIff(c, before, rest, more);
    }
  }

  lemma PieceStepIff(c: string, before: nat, rest: string, more: seq<Tok>)
    requires c != "" && Stops(rest)
    ensures var d := c[First(c).1..];
            var tail := Sources(ShiftAll(Tokens(d), before)) + rest;
            Tokens(Sources(ShiftAll(Tokens(c), before)) + rest) == ShiftAll(Tokens(c), before) + more
            <==> Stays(First(c).0, tail) && Tokens(tail) == ShiftAll(Tokens(d), before) + more
  {
    hide Sources, Source, First, Stays, Resembles;
    var (t, n) := First(c);
    var d := c[n..];
    var t' := Shift(t, before);
    var copied := Sources(ShiftAll(Tokens(d), before));
    var tail := copied + rest;
    assert Tokens(c) == [t] + Tokens(d);
    CopyResembles(d, before, rest);
    FirstReadBackIff(c, before, tail);
    SourcesOfPiece(c, before);
    Regrouped(Source(t'), copied, rest);
    ShiftCons(t, Tokens(d), before);
    Regrouped([t'], ShiftAll(Tokens(d), before), more);
    SourceNonempty(c, before);
    TokensUnfold(Source(t') + tail);
    assert (Source(t') + tail)[|Source(t')|..] == tail;
    hide Tokens, ShiftAll;
    ConsEqual(First(Source(t') + tail).0, Tokens((Source(t') + tail)[First(Source(t') + tail).1..]), t',
              ShiftAll(Tokens(d), before) + more);
  }

  lemma SourceNonempty(c: string, before: nat)
    requires c != ""
    ensures Source(Shift(First(c).0, before)) != ""
  {
    FirstSource(c);
  }

  lemma TokensUnfold(s: string)
    requires s != ""
    ensures Tokens(s) == [First(s).0] + Tokens(s[First(s).1..])
  {
    hide First;
  }

  lemma ConsEqual<T>(x: T, xs: seq<T>, y: T, ys: seq<T>)
    ensures [x] + xs == [y] + ys <==> x == y && xs == ys
  {
    if [x] + xs == [y] + ys {
      assert ([x] + xs)[0] == x && ([x] + xs)[1..] == xs;
      assert ([y] + ys)[0] == y && ([y] + ys)[1..] == ys;
    }
  }

  lemma ShiftCons(t: Tok, ts: seq<Tok>, offset: nat)
    ensures ShiftAll([t] + ts, offset) == [Shift(t, offset)] + ShiftAll(ts, offset)
  {
  }

  lemma BarThen(tail: string)
    ensures Tokens("|" + tail) == [Plain('|')] + Tokens(tail)
  {
    assert ("|" + tail)[1..] == tail;
  }

  /** A well-formed piece is left alone by everything. */
  lemma {:induction false} WellFormedSettles(c: string, before: nat, rest: string)
    requires WellFormed(c)
    ensures Settled(c, before, rest)
    decreases |c|
  {
    hide First, Sources, ShiftAll;
    if c != "" {
      RestWellFormed(c);
      WellFormedSettles(c[First(c).1..], before, rest);
    }
  }

  lemma RestWellFormed(c: string)
    requires c != "" && WellFormed(c)
    ensures First(c).0 != Plain('[') && First(c).0 != Plain('\\') && WellFormed(c[First(c).1..])
  {
    hide First;
    var (t, n) := First(c);
    assert Tokens(c) == [t] + Tokens(c[n..]);
    assert t in Tokens(c) && forall u <- Tokens(c[n..]) :: u in Tokens(c);
  }

  /** Re-reading a copied well-formed piece gives its tokens, shifted. */
  lemma PieceReadBack(c: string, before: nat, rest: string)
    requires WellFormed(c) && Stops(rest)
    ensures Tokens(Sources(ShiftAll(Tokens(c), before)) + rest) == ShiftAll(Tokens(c), before) + Tokens(rest)
  {
    hide Tokens, Sources, ShiftAll, Settled, WellFormed;
    WellFormedSettles(c, before, rest);
    PieceReadBackIff(c, before, rest, Tokens(rest));
  }

  /** What the join writes after the first piece. */
  function Following(pieces: seq<string>, offset: nat): string
    requires pieces != []
  {
    if |pieces| == 1 then "" else "|" + Sources(Joined(pieces[1..], offset + Groups(Tokens(pieces[0]))))
  }

  /** Every piece is left alone by what follows it. */
  ghost predicate JoinSettled(pieces: seq<string>, offset: nat) {
    pieces == [] ||
    (Settled(pieces[0], offset, Following(pieces, offset))
     && JoinSettled(pieces[1..], offset + Groups(Tokens(pieces[0]))))
  }

  /** Re-reading the joined source gives the pieces' tokens, shifted and separated, exactly when every
      piece is left alone by what follows it. */
  lemma {:induction false} JoinReadBackIff(pieces: seq<string>, offset: nat)
    ensures Tokens(Sources(Joined(pieces, offset))) == Joined(pieces, offset) <==> JoinSettled(pieces, offset)
  {
    if pieces == [] {
    } else {
      hide Sources, Tokens, ShiftAll, Groups, Settled, Joined;
      var ts := Tokens(pieces[0]);
      var rest := Joined(pieces[1..], offset + Groups(ts));
      JoinReadBackIff(pieces[1..], offset + Groups(ts));
      JoinedUnfolds(pieces, offset);
      if |pieces| == 1 {
        assert pieces[1..] == [];
        NothingJoined(offset + Groups(ts));
        LastReadBackIff(pieces[0], offset);
        Trailing(ShiftAll(ts, offset));
      } else {
        InnerReadBackIff(pieces[0], offset, rest);
      }
    }
  }

  lemma NothingJoined(offset: nat)
    ensures Joined([], offset) == [] && Tokens(Sources([])) == []
  {
  }

  lemma Trailing<T>(a: seq<T>)
    ensures a + [] + [] == a
  {
  }

  lemma LastReadBackIff(c: string, offset: nat)
    ensures Tokens(Sources(ShiftAll(Tokens(c), offset))) == ShiftAll(Tokens(c), offset) <==> Settled(c, offset, "")
  {
    assert Tokens("") == [];
    hide Tokens, Sources, ShiftAll, Settled;
    PieceReadBackIff(c, offset, "", []);
    assert Sources(ShiftAll(Tokens(c), offset)) + "" == Sources(ShiftAll(Tokens(c), offset));
    assert ShiftAll(Tokens(c), offset) + [] == ShiftAll(Tokens(c), offset);
  }

  lemma InnerReadBackIff(c: string, offset: nat, rest: seq<Tok>)
    ensures Tokens(Sources(ShiftAll(Tokens(c), offset) + [Plain('|')] + rest))
            == ShiftAll(Tokens(c), offset) + [Plain('|')] + rest
       <==> Settled(c, offset, "|" + Sources(rest)) && Tokens(Sources(rest)) == rest
  {
    hide Sources, Tokens, ShiftAll, Settled;
    var ts := ShiftAll(Tokens(c), offset);
    SourcesConcat(ts + [Plain('|')], rest);
    SourcesConcat(ts, [Plain('|')]);
    SourcesOne(Plain('|'));
    PieceReadBackIff(c, offset, "|" + Sources(rest), [Plain('|')] + rest);
    BarThen(Sources(rest));
    ConsEqual(Plain('|'), Tokens(Sources(rest)), Plain('|'), rest);
    Regrouped(Sources(ts), "|", Sources(rest));
    Regrouped(ts, [Plain('|')], rest);
  }

  lemma {:induction false} WellFormedJoinSettles(pieces: seq<string>, offset: nat)
    requires forall p <- pieces :: WellFormed(p)
    ensures JoinSettled(pieces, offset)
  {
    hide WellFormed, Settled, Following;
    if pieces != [] {
      WellFormedSettles(pieces[0], offset, Following(pieces, offset));
      WellFormedJoinSettles(pieces[1..], offset + Groups(Tokens(pieces[0])));
    }
  }

  /** Re-reading the joined source of well-formed pieces gives their tokens, shifted and separated. */
  lemma JoinReadBack(pieces: seq<string>, offset: nat)
    requires forall p <- pieces :: WellFormed(p)
    ensures Tokens(Sources(Joined(pieces, offset))) == Joined(pieces, offset)
  {
    WellFormedJoinSettles(pieces, offset);
    JoinReadBackIff(pieces, offset);
  }

  // ----- references still mean the same group -----

  /** A group that captures, whether the scanner counts it or not. */
  predicate Captures(t: Tok) {
    t.Group? || t.NamedGroup?
  }

  function Captured(ts: seq<Tok>): nat {
    if ts == [] then 0 else (if Captures(ts[0]) then 1 else 0) + Captured(ts[1..])
  }

  /** Position of the `g`-th capture group, counted from one: what `\g` refers to. */
  function CaptureAt(ts: seq<Tok>, g: nat): (k: nat)
    requires 1 <= g <= Captured(ts)
    ensures k < |ts| && Captures(ts[k])
  {
    if Captures(ts[0]) && g == 1 then 0
    else 1 + CaptureAt(ts[1..], if Captures(ts[0]) then g - 1 else g)
  }

  /** The joined tokens in front of piece `i`. */
  function Before(pieces: seq<string>, i: nat, offset: nat): seq<Tok>
    requires i < |pieces|
  {
    if i == 0 then []
    else
      var ts := Tokens(pieces[0]);
      ShiftAll(ts, offset) + [Plain('|')] + Before(pieces[1..], i - 1, offset + Groups(ts))
  }

  lemma GroupsShifted(ts: seq<Tok>, offset: nat)
    ensures Groups(ShiftAll(ts, offset)) == Groups(ts)
  {
    if ts != [] {
      GroupsShifted(ts[1..], offset);
      assert ShiftAll(ts, offset)[1..] == ShiftAll(ts[1..], offset);
    }
  }

  lemma {:induction false} CapturedConcat(a: seq<Tok>, b: seq<Tok>)
    ensures Captured(a + b) == Captured(a) + Captured(b)
  {
    hide Captures;
    if a == [] {
      assert a + b == b;
    } else {
      assert (a + b)[1..] == a[1..] + b;
      CapturedConcat(a[1..], b);
    }
  }

  lemma {:induction false} CapturedShifted(ts: seq<Tok>, offset: nat)
    ensures Captured(ShiftAll(ts, offset)) == Captured(ts)
  {
    if ts == [] {
    } else {
      CapturedShifted(ts[1..], offset);
      assert ShiftAll(ts, offset)[1..] == ShiftAll(ts[1..], offset);
    }
  }

  lemma {:induction false} CaptureAtShifted(ts: seq<Tok>, offset: nat, g: nat)
    requires 1 <= g <= Captured(ts)
    ensures Captured(ShiftAll(ts, offset)) == Captured(ts)
    ensures CaptureAt(ShiftAll(ts, offset), g) == CaptureAt(ts, g)
  {
    CapturedShifted(ts, offset);
    if !(Captures(ts[0]) && g == 1) {
      CaptureAtShifted(ts[1..], offset, if Captures(ts[0]) then g - 1 else g);
      assert ShiftAll(ts, offset)[1..] == ShiftAll(ts[1..], offset);
    }
  }

  lemma {:induction false} CaptureAtInside(a: seq<Tok>, s: seq<Tok>, b: seq<Tok>, g: nat)
    requires 1 <= g <= Captured(s)
    ensures Captured(a) + g <= Captured(a + s + b)
    ensures CaptureAt(a + s + b, Captured(a) + g) == |a| + CaptureAt(s, g)
    decreases a
  {
    hide Captures;
    CapturedConcat(a + s, b);
    CapturedConcat(a, s);
    if a == [] {
      LeftUnit(s);
      CaptureAtFront(s, b, g);
    } else {
      assert (a + s + b)[1..] == a[1..] + s + b;
      CaptureAtInside(a[1..], s, b, g);
    }
  }

  lemma {:induction false} CaptureAtFront(s: seq<Tok>, b: seq<Tok>, g: nat)
    requires 1 <= g <= Captured(s)
    ensures Captured(s + b) >= g && CaptureAt(s + b, g) == CaptureAt(s, g)
    decreases s
  {
    hide Captures;
    CapturedConcat(s, b);
    if !(Captures(s[0]) && g == 1) {
      assert (s + b)[1..] == s[1..] + b;
      CaptureAtFront(s[1..], b, if Captures(s[0]) then g - 1 else g);
    }
  }

  /** Different numbers refer to different groups. */
  lemma {:induction false} CapturesDiffer(s: seq<Tok>, g: nat, h: nat)
    requires 1 <= g < h <= Captured(s)
    ensures CaptureAt(s, g) < CaptureAt(s, h)
    decreases s
  {
    hide Captures;
    if !(Captures(s[0]) && g == 1) {
      var one := if Captures(s[0]) then 1 else 0;
      CapturesDiffer(s[1..], g - one, h - one);
    }
  }

  /** Only named groups capture uncounted. */
  lemma {:induction false} CountedIff(ts: seq<Tok>)
    ensures Captured(ts) >= Groups(ts) && (Captured(ts) == Groups(ts) <==> NamedGroup !in ts)
  {
    if ts == [] {
    } else {
      CountedIff(ts[1..]);
      assert NamedGroup in ts <==> ts[0] == NamedGroup || NamedGroup in ts[1..];
    }
  }

  /** The scanner counts every capture group of the first `i` pieces. */
  predicate NoneNamed(pieces: seq<string>, i: nat)
    requires i <= |pieces|
  {
    forall k | 0 <= k < i :: NamedGroup !in Tokens(pieces[k])
  }

  lemma {:induction false} NamedBefore(pieces: seq<string>, i: nat, offset: nat)
    requires i < |pieces|
    ensures NamedGroup !in Before(pieces, i, offset) <==> NoneNamed(pieces, i)
    decreases i
  {
    if i > 0 {
      hide Tokens, Groups, ShiftAll, NoneNamed;
      var ts := Tokens(pieces[0]);
      var inner := Before(pieces[1..], i - 1, offset + Groups(ts));
      assert Before(pieces, i, offset) == ShiftAll(ts, offset) + [Plain('|')] + inner;
      hide Before;
      NamedBefore(pieces[1..], i - 1, offset + Groups(ts));
      NamedShifted(ts, offset);
      NoneNamedCons(pieces, i);
      assert NamedGroup in ShiftAll(ts, offset) + [Plain('|')] + inner
             <==> NamedGroup in ShiftAll(ts, offset) || NamedGroup in inner;
    }
  }

  lemma NoneNamedCons(pieces: seq<string>, i: nat)
    requires 0 < i <= |pieces|
    ensures NoneNamed(pieces, i) <==> NamedGroup !in Tokens(pieces[0]) && NoneNamed(pieces[1..], i - 1)
  {
    hide Tokens;
    if NamedGroup !in Tokens(pieces[0]) && NoneNamed(pieces[1..], i - 1) {
      forall k | 0 <= k < i ensures NamedGroup !in Tokens(pieces[k]) {
        assert k > 0 ==> pieces[k] == pieces[1..][k - 1];
      }
    }
  }

  lemma NamedShifted(ts: seq<Tok>, offset: nat)
    ensures NamedGroup in ShiftAll(ts, offset) <==> NamedGroup in ts
  {
    forall k | 0 <= k < |ts| ensures ShiftAll(ts, offset)[k] == NamedGroup <==> ts[k] == NamedGroup {}
  }

  /** Piece `i` stands in the joined tokens, shifted by the groups in front of it. */
  lemma {:induction false} PieceInJoined(pieces: seq<string>, i: nat, offset: nat) returns (after: seq<Tok>)
    requires i < |pieces|
    ensures Joined(pieces, offset)
         == Before(pieces, i, offset) + ShiftAll(Tokens(pieces[i]), offset + Groups(Before(pieces, i, offset))) + after
    decreases i
  {
    hide Joined, Before, Tokens, ShiftAll, Groups;
    if i == 0 {
      after := FirstInJoined(pieces, offset);
    } else {
      after := PieceInJoined(pieces[1..], i - 1, offset + Groups(Tokens(pieces[0])));
      BeforeStep(pieces, i, offset, after);
    }
  }

  lemma FirstInJoined(pieces: seq<string>, offset: nat) returns (after: seq<Tok>)
    requires pieces != []
    ensures Joined(pieces, offset)
         == Before(pieces, 0, offset) + ShiftAll(Tokens(pieces[0]), offset + Groups(Before(pieces, 0, offset))) + after
  {
    BeforeFirst(pieces, offset);
    hide Tokens, ShiftAll, Groups, Before;
    var ts := Tokens(pieces[0]);
    var bar := if |pieces| > 1 then [Plain('|')] else [];
    var rest := Joined(pieces[1..], offset + Groups(ts));
    after := bar + rest;
    JoinedUnfolds(pieces, offset);
    hide Joined;
    Regrouped(ShiftAll(ts, offset), bar, rest);
    LeftUnit(ShiftAll(ts, offset));
  }

  lemma BeforeFirst(pieces: seq<string>, offset: nat)
    requires pieces != []
    ensures Before(pieces, 0, offset) == [] && Groups(Before(pieces, 0, offset)) == 0
  {
  }

  lemma JoinedUnfolds(pieces: seq<string>, offset: nat)
    requires pieces != []
    ensures var ts := Tokens(pieces[0]);
            Joined(pieces, offset)
            == ShiftAll(ts, offset) + (if |pieces| > 1 then [Plain('|')] else [])
                + Joined(pieces[1..], offset + Groups(ts))
  {
    hide Tokens, ShiftAll, Groups;
  }

  lemma LeftUnit<T>(a: seq<T>)
    ensures [] + a == a
  {
  }

  lemma Regrouped<T>(a: seq<T>, b: seq<T>, c: seq<T>)
    ensures a + b + c == a + (b + c)
  {
  }

  lemma BeforeStep(pieces: seq<string>, i: nat, offset: nat, after: seq<Tok>)
    requires 0 < i < |pieces|
    requires var from := offset + Groups(Tokens(pieces[0]));
             var inner := Before(pieces[1..], i - 1, from);
             Joined(pieces[1..], from) == inner + ShiftAll(Tokens(pieces[1..][i - 1]), from + Groups(inner)) + after
    ensures Joined(pieces, offset)
         == Before(pieces, i, offset) + ShiftAll(Tokens(pieces[i]), offset + Groups(Before(pieces, i, offset))) + after
  {
    hide Tokens, Groups, ShiftAll;
    var ts := Tokens(pieces[0]);
    var head := ShiftAll(ts, offset) + [Plain('|')];
    var inner := Before(pieces[1..], i - 1, offset + Groups(ts));
    assert Before(pieces, i, offset) == head + inner;
    assert Joined(pieces, offset) == head + Joined(pieces[1..], offset + Groups(ts));
    hide Before, Joined;
    GroupsShifted(ts, offset);
    GroupsSnoc(ShiftAll(ts, offset), Plain('|'));
    GroupsConcat(head, inner);
    assert pieces[1..][i - 1] == pieces[i];
    var mid := ShiftAll(Tokens(pieces[i]), offset + Groups(head + inner));
    assert head + (inner + mid + after) == head + inner + mid + after;
  }

  /** A back-reference of piece `i` to its `g`-th group becomes, in the joined expression, a
      back-reference to that same group, if and only if no earlier piece names a group. */
  lemma ReferencesFollowTheirGroups(pieces: seq<string>, i: nat, j: nat, g: nat)
    requires forall p <- pieces :: WellFormed(p)
    requires i < |pieces| && j < |Tokens(pieces[i])| && Tokens(pieces[i])[j] == Ref(g)
    requires 1 <= g <= Captured(Tokens(pieces[i]))
    ensures var joined := Tokens(Sources(Joined(pieces, 0)));
            var start := Before(pieces, i, 0);
            var g' := g + Groups(start);
            && |start| + j < |joined| && joined[|start| + j] == Ref(g') && g' <= Captured(joined)
            && (CaptureAt(joined, g') == |start| + CaptureAt(Tokens(pieces[i]), g) <==> NoneNamed(pieces, i))
  {
    hide Tokens, Sources, Joined, Before, CaptureAt, Captured, Groups, NoneNamed;
    var ts := Tokens(pieces[i]);
    var start := Before(pieces, i, 0);
    JoinReadBack(pieces, 0);
    var after := PieceInJoined(pieces, i, 0);
    var shifted := ShiftAll(ts, 0 + Groups(start));
    var joined := start + shifted + after;
    CaptureAtShifted(ts, Groups(start), g);
    CaptureAtInside(start, shifted, after, g);
    CountedIff(start);
    NamedBefore(pieces, i, 0);
    if Groups(start) < Captured(start) {
      CapturesDiffer(joined, g + Groups(start), g + Captured(start));
    }
    assert joined[|start| + j] == shifted[j];
  }

  /** A named group captures, but the scanner does not count it. */
  lemma NamedGroupIsNotCounted(p: string)
    requires p == "(?<y>a)"
    ensures Groups(Tokens(p)) == 0 && Captured(Tokens(p)) == 1
  {
    var q := p[2..];
    assert q == "<y>a)" && First(p) == (NamedGroup, 2);
    assert Tokens(p) == [NamedGroup] + Tokens(q);
    NoGroups(q);
    hide Tokens, First;
    assert ([NamedGroup] + Tokens(q))[1..] == Tokens(q);
  }

  lemma {:induction false} NoGroups(s: string)
    requires '(' !in s && '[' !in s && '\\' !in s
    ensures Groups(Tokens(s)) == 0 && Captured(Tokens(s)) == 0
  {
    if s != "" {
      assert First(s) == (Plain(s[0]), 1);
      NoGroups(s[1..]);
      assert Tokens(s) == [Plain(s[0])] + Tokens(s[1..]);
      assert ([Plain(s[0])] + Tokens(s[1..]))[1..] == Tokens(s[1..]);
    }
  }

  // ----- an unclosed class -----

  /** Inside a class, an ordinary character and an escape are passed over. */
  lemma CharThrough(s: string)
    requires s != ""
    ensures s[0] != ']' && s[0] != '\\' ==> (ClassLength(s) == None <==> ClassLength(s[1..]) == None)
    ensures s[0] == ']' ==> ClassLength(s) != None
    ensures s[0] == '\\' && |s| > 1 && !LineEnd(s[1]) ==> (ClassLength(s) == None <==> ClassLength(s[2..]) == None)
  {
  }

  /** Inside an unclosed class a token of the piece is passed over. */
  lemma TokenThrough(d: string, before: nat, tail: string)
    requires d != "" && ClassLength(d) == None && First(d).0 != Plain('\\')
    ensures ClassLength(d[First(d).1..]) == None
    ensures ClassLength(Source(Shift(First(d).0, before)) + tail) == None <==> ClassLength(tail) == None
  {
    var (t, n) := First(d);
    var s := Source(Shift(t, before)) + tail;
    CharThrough(d);
    CharThrough(s);
    match t {
      case Class(text) =>
      case Group => assert s[1..] == tail;
      case SpecialGroup => TwoThrough(d, s, tail);
      case NamedGroup => TwoThrough(d, s, tail);
      case Plain(c) => assert s[1..] == tail;
      case Escaped(c) => assert s[2..] == tail;
      case Ref(m) => RefThrough(d, n, m, before, tail);
    }
  }

  lemma RefThrough(d: string, n: nat, m: nat, before: nat, tail: string)
    requires d != "" && First(d) == (Ref(m), n) && ClassLength(d) == None
    ensures ClassLength(d[n..]) == None
    ensures ClassLength("\\" + Decimal(m + before) + tail) == None <==> ClassLength(tail) == None
  {
    assert n >= 2 && d[0] == '\\' && IsDigit(d[1]) && forall i | 0 <= i < n - 1 :: IsDigit(d[1..][i]);
    hide First, Decimal, ClassLength;
    CharThrough(d);
    assert forall i | 0 <= i < n - 2 :: d[2..][i] == d[1..][i + 1];
    DigitsThrough(d[2..], n - 2);
    assert d[2..][n - 2..] == d[n..];
    WrittenThrough(m + before, tail);
  }

  lemma WrittenThrough(m: nat, tail: string)
    ensures ClassLength("\\" + Decimal(m) + tail) == None <==> ClassLength(tail) == None
  {
    hide Decimal, ClassLength;
    var written := Decimal(m);
    DecimalRoundTrip(m);
    var s := "\\" + written + tail;
    assert s[0] == '\\' && s[1] == written[0] && IsDigit(s[1]);
    CharThrough(s);
    assert s[2..] == written[1..] + tail;
    DigitsThrough(written[1..] + tail, |written| - 1);
    assert (written[1..] + tail)[|written| - 1..] == tail;
  }

  lemma TwoThrough(d: string, s: string, tail: string)
    requires |d| > 1 && d[0] == '(' && d[1] == '?' && s == "(?" + tail
    ensures ClassLength(d) == None ==> ClassLength(d[2..]) == None
    ensures ClassLength(s) == None <==> ClassLength(tail) == None
  {
    hide ClassLength;
    CharThrough(d);
    CharThrough(d[1..]);
    CharThrough(s);
    CharThrough(s[1..]);
    assert d[1..][1..] == d[2..] && s[1..][1..] == tail;
  }

  lemma {:induction false} DigitsThrough(s: string, k: nat)
    requires k <= |s| && forall i | 0 <= i < k :: IsDigit(s[i])
    ensures ClassLength(s) == None <==> ClassLength(s[k..]) == None
  {
    if k > 0 {
      DigitsThrough(s[1..], k - 1);
      assert s[1..][k - 1..] == s[k..];
    }
  }

  /** A piece without a stray backslash is passed over whole. */
  lemma {:induction false} PieceThrough(d: string, before: nat, rest: string)
    requires ClassLength(d) == None && Plain('\\') !in Tokens(d)
    ensures ClassLength(Sources(ShiftAll(Tokens(d), before)) + rest) == None <==> ClassLength(rest) == None
    decreases |d|
  {
    if d == "" {
      NothingCopied(before, rest);
    } else {
      hide First, ClassLength, Sources, Source, ShiftAll;
      var (t, n) := First(d);
      var copied := Sources(ShiftAll(Tokens(d[n..]), before));
      assert Tokens(d) == [t] + Tokens(d[n..]);
      assert t in Tokens(d) && Plain('\\') !in Tokens(d[n..]);
      SourcesOfPiece(d, before);
      TokenThrough(d, before, copied + rest);
      PieceThrough(d[n..], before, rest);
      Regrouped(Source(Shift(t, before)), copied, rest);
    }
  }

  lemma NothingCopied(before: nat, rest: string)
    ensures Sources(ShiftAll(Tokens(""), before)) + rest == rest
  {
    assert ShiftAll([], before) == [] && Sources([]) == "" && "" + rest == rest;
  }

  /** A piece without a stray backslash is left alone unless it has an unclosed `[` that a `]` in what
      follows closes. */
  lemma {:induction false} SettledIff(c: string, before: nat, rest: string)
    requires Plain('\\') !in Tokens(c)
    ensures Settled(c, before, rest) <==> Plain('[') !in Tokens(c) || ClassLength(rest) == None
    decreases |c|
  {
    if c != "" {
      hide First, ClassLength, Sources, ShiftAll;
      var (t, n) := First(c);
      var d := c[n..];
      assert Tokens(c) == [t] + Tokens(d);
      assert t in Tokens(c) && (Plain('\\') !in Tokens(d))
             && (Plain('[') in Tokens(c) <==> t == Plain('[') || Plain('[') in Tokens(d));
      SettledIff(d, before, rest);
      if t == Plain('[') {
        UnclosedHere(c);
        PieceThrough(d, before, rest);
      }
    }
  }

  lemma UnclosedHere(c: string)
    requires c != "" && First(c).0 == Plain('[')
    ensures ClassLength(c[First(c).1..]) == None
  {
  }

  /** Two pieces without stray backslashes read back as themselves if and only if no `]` of the second
      closes a `[` that is unclosed in the first. The compiler compiles every begin, end and illegal
      source on its own before it joins them, so that a piece like this is rejected there, except for
      the end source of a language's root, which is never compiled on its own. */
  lemma UnclosedClassIff(a: string, b: string)
    requires Plain('\\') !in Tokens(a) && Plain('\\') !in Tokens(b)
    ensures Tokens(Sources(Joined([a, b], 0))) == Joined([a, b], 0)
       <==> Plain('[') !in Tokens(a) || ClassLength("|" + Sources(Joined([b], Groups(Tokens(a))))) == None
  {
    hide Sources, Tokens, Groups, Joined, Settled;
    var pieces, groups := [a, b], Groups(Tokens(a));
    JoinReadBackIff(pieces, 0);
    assert pieces[1..] == [b] && [b][1..] == [];
    assert Following(pieces, 0) == "|" + Sources(Joined([b], 0 + groups)) && Following([b], 0 + groups) == "";
    SettledIff(a, 0, Following(pieces, 0));
    SettledIff(b, 0 + groups, "");
    assert ClassLength("") == None;
    assert JoinSettled([], groups + Groups(Tokens(b)));
  }

  /** An unclosed `[` in one piece swallows the separator and the next piece. */
  lemma UnclosedClassSwallowsTheNextPiece(a: string, b: string)
    requires a == "[" && b == "]"
    ensures Tokens(a + "|" + b) == [Class("[|]")]
    ensures Tokens(a) + [Plain('|')] + Tokens(b) != [Class("[|]")]
  {
    var s := a + "|" + b;
    assert s == "[|]" && s[1..] == "|]" && s[1..][1..] == "]";
    assert ClassLength("]") == Some(1);
    assert ClassLength(s[1..][1..]) == Some(1) && ClassLength(s[1..]) == Some(2);
    assert First(s) == (Class(s[..3]), 3) && s[..3] == s && s[3..] == "";
    assert Tokens(s) == [First(s).0] + Tokens(s[3..]) && Tokens(s[3..]) == [];
    assert |Tokens(a) + [Plain('|')] + Tokens(b)| >= 1;
    assert a[1..] == "" && ClassLength(a[1..]) == None;
    assert First(a) == (Plain('['), 1) && Tokens(a)[0] == Plain('[');
  }
}
