/** Splitting a text of UTF-16 units into the clusters that are drawn and animated as one letter. */
module TextClusters {

  type Text = seq<nat>

  predicate High(u: nat) {
    0xD800 <= u <= 0xDBFF
  }

  predicate Low(u: nat) {
    0xDC00 <= u <= 0xDFFF
  }

  const JOINER: nat := 0x200D
  const VARIATION: nat := 0xFE0F

  /** Devanagari signs that attach to the letter before them. */
  predicate Combines(u: nat) {
    2304 <= u <= 2307 || 2362 <= u <= 2364 || 2366 <= u <= 2383 || 2387 <= u <= 2391 || 2402 <= u <= 2403
  }

  /** The combining marks of the Devanagari block of Unicode (U+0900 to U+097F). */
  predicate DevanagariMark(u: nat) {
    || 0x900 <= u <= 0x903 || 0x93A <= u <= 0x93C || 0x93E <= u <= 0x94F
    || 0x951 <= u <= 0x957 || 0x962 <= u <= 0x963
  }

  /** The source attaches all of them but two, the stress signs udatta and anudatta. */
  lemma CombiningMarksIff(u: nat)
    ensures Combines(u) <==> DevanagariMark(u) && u != 0x951 && u != 0x952
  {
  }

  /** The skin tones. */
  predicate Modifier(u: nat, v: nat) {
    u == 0xD83C && 0xDFFB <= v <= 0xDFFF
  }

  /** The code point of a surrogate pair. */
  function CodePoint(u: nat, v: nat): int {
    0x10000 + (u - 0xD800) * 0x400 + (v - 0xDC00)
  }

  /** They are the five modifiers from U+1F3FB to U+1F3FF. */
  lemma SkinTonesIff(u: nat, v: nat)
    requires High(u) && Low(v)
    ensures Modifier(u, v) <==> 0x1F3FB <= CodePoint(u, v) <= 0x1F3FF
  {
  }

  /** `charCodeAt(k)` stands in a comparison: past the end every comparison fails. */
  predicate LowAt(t: Text, k: nat) {
    k < |t| && Low(t[k])
  }

  /** One step of the scan: a piece of text that joins the cluster before it or starts one. */
  datatype Token = Token(text: Text, joins: bool)

  /** The step at position `s`, when `joining` says that a joiner is pending; and what it leaves pending. */
  function Step(t: Text, s: nat, joining: bool): (r: (Token, bool))
    requires s < |t|
    ensures 1 <= |r.0.text| <= 2 && s + |r.0.text| <= |t| && r.0.text == t[s..s + |r.0.text|]
  {
    var e := t[s];
    if Combines(e) then (Token(t[s..s + 1], true), joining)
    else if High(e) then
      if LowAt(t, s + 1) then
        if joining || Modifier(e, t[s + 1]) then (Token(t[s..s + 2], true), false)
        else (Token(t[s..s + 2], false), joining)
      else (Token(t[s..s + 1], false), joining)
    else if e > 0xDBFF then
      if e == VARIATION && s + 1 < |t| && t[s + 1] == JOINER then (Token(t[s..s + 2], true), true)
      else (Token(t[s..s + 1], false), joining)
    else if e == JOINER then (Token(t[s..s + 1], true), true)
    else (Token(t[s..s + 1], false), joining)
  }

  function Tokens(t: Text, s: nat, joining: bool): seq<Token>
    requires s <= |t|
    decreases |t| - s
  {
    if s == |t| then []
    else
      var (token, pending) := Step(t, s, joining);
      [token] + Tokens(t, s + |token.text|, pending)
  }

  /** One more token: appending to a cluster that is not there loses the text. */
  function Extended(clusters: seq<Text>, token: Token): seq<Text> {
    if !token.joins then clusters + [token.text]
    else if clusters == [] then []
    else clusters[|clusters| - 1 := clusters[|clusters| - 1] + token.text]
  }

  function Grouped(tokens: seq<Token>): seq<Text> {
    if tokens == [] then [] else Extended(Grouped(tokens[..|tokens| - 1]), tokens[|tokens| - 1])
  }

  function Clusters(t: Text): seq<Text> {
    Grouped(Tokens(t, 0, false))
  }

  /** `buildFinalText`. */
  method BuildFinalText(t: Text) returns (clusters: seq<Text>)
    ensures clusters == Clusters(t)
  {
    hide Grouped, Combines, Modifier, Tokens;
    clusters := [];
    var s, joining := 0, false;
    ghost var done: seq<Token> := [];
    GroupedStarts(Tokens(t, 0, false));
    while s < |t|
      invariant s <= |t| && clusters == Grouped(done)
      invariant Tokens(t, 0, false) == done + Tokens(t, s, joining)
    {
      ghost var (token, pending) := Step(t, s, joining);
      GroupedStep(t, s, joining, done);
      done := done + [token];
      var e := t[s];
      if Combines(e) {
        clusters := Append(clusters, t[s..s + 1]);
      } else if High(e) {
        if LowAt(t, s + 1) {
          if joining || Modifier(e, t[s + 1]) {
            clusters := Append(clusters, t[s..s + 2]);
            joining := false;
          } else {
            clusters := clusters + [t[s..s + 2]];
          }
          s := s + 1;
        } else {
          clusters := clusters + [t[s..s + 1]];
        }
      } else if e > 0xDBFF {
        if e == VARIATION && s + 1 < |t| && t[s + 1] == JOINER {
          joining := true;
          clusters := Append(clusters, t[s..s + 2]);
          s := s + 1;
        } else {
          clusters := clusters + [t[s..s + 1]];
        }
      } else if e == JOINER {
        clusters := Append(clusters, t[s..s + 1]);
        joining := true;
      } else {
        clusters := clusters + [t[s..s + 1]];
      }
      s := s + 1;
    }
    TokensEnd(t, joining, done);
  }

  function Append(clusters: seq<Text>, text: Text): seq<Text> {
    Extended(clusters, Token(text, true))
  }

  lemma GroupedStarts(tokens: seq<Token>)
    ensures Grouped([]) == [] && [] + tokens == tokens
  {
  }

  lemma GroupedStep(t: Text, s: nat, joining: bool, done: seq<Token>)
    requires s < |t|
    ensures var (token, pending) := Step(t, s, joining);
            && Grouped(done + [token]) == Extended(Grouped(done), token)
            && done + Tokens(t, s, joining) == done + [token] + Tokens(t, s + |token.text|, pending)
  {
    hide Step, Extended;
    var (token, pending) := Step(t, s, joining);
    var rest := Tokens(t, s + |token.text|, pending);
    assert (done + [token])[..|done|] == done;
    assert Tokens(t, s, joining) == [token] + rest;
    Associates(done, [token], rest);
  }

  lemma Associates<T>(a: seq<T>, b: seq<T>, c: seq<T>)
    ensures a + (b + c) == a + b + c
  {
  }

  lemma TokensEnd(t: Text, joining: bool, done: seq<Token>)
    ensures done + Tokens(t, |t|, joining) == done
  {
  }

  // ----- what is kept -----

  function Flat(ts: seq<Text>): Text {
    if ts == [] then [] else Flat(ts[..|ts| - 1]) + ts[|ts| - 1]
  }

  function Spelled(tokens: seq<Token>): Text {
    if tokens == [] then [] else tokens[0].text + Spelled(tokens[1..])
  }

  lemma {:induction false} TokensSpell(t: Text, s: nat, joining: bool)
    requires s <= |t|
    ensures Spelled(Tokens(t, s, joining)) == t[s..]
    decreases |t| - s
  {
    if s < |t| {
      var (token, pending) := Step(t, s, joining);
      var next := s + |token.text|;
      TokensSpell(t, next, pending);
      assert t[s..] == t[s..next] + t[next..];
    }
  }

  lemma {:induction false} SpelledSnoc(tokens: seq<Token>, token: Token)
    ensures Spelled(tokens + [token]) == Spelled(tokens) + token.text
  {
    if tokens == [] {
      assert [token][1..] == [];
      assert token.text + [] == [] + token.text;
    } else {
      assert (tokens + [token])[1..] == tokens[1..] + [token];
      SpelledSnoc(tokens[1..], token);
    }
  }

  /** How many tokens at the front have no cluster to join. */
  function Stray(tokens: seq<Token>): (n: nat)
    ensures n <= |tokens| && (forall k | 0 <= k < n :: tokens[k].joins) && (n < |tokens| ==> !tokens[n].joins)
  {
    if tokens == [] || !tokens[0].joins then 0 else 1 + Stray(tokens[1..])
  }

  lemma FlatExtended(clusters: seq<Text>, token: Token)
    ensures clusters != [] || !token.joins ==> Flat(Extended(clusters, token)) == Flat(clusters) + token.text
  {
    if !token.joins {
      assert (clusters + [token.text])[..|clusters|] == clusters;
    } else if clusters != [] {
      var n := |clusters| - 1;
      assert clusters[n := clusters[n] + token.text][..n] == clusters[..n];
      assert Flat(clusters[..n]) + (clusters[n] + token.text) == Flat(clusters[..n]) + clusters[n] + token.text;
    }
  }

  /** The clusters spell all tokens but the stray ones. */
  lemma {:induction false} GroupedSpells(tokens: seq<Token>, stray: nat)
    requires stray <= |tokens| && (forall k | 0 <= k < stray :: tokens[k].joins)
             && (stray < |tokens| ==> !tokens[stray].joins)
    ensures Flat(Grouped(tokens)) == Spelled(tokens[stray..]) && (Grouped(tokens) == [] <==> stray == |tokens|)
  {
    if tokens == [] {
    } else {
      var n := |tokens| - 1;
      assert Grouped(tokens) == Extended(Grouped(tokens[..n]), tokens[n]);
      assert tokens[|tokens|..] == [] && Spelled([]) == [];
      hide Grouped, Flat, Spelled;
      if stray <= n {
        GroupedSpells(tokens[..n], stray);
        FlatExtended(Grouped(tokens[..n]), tokens[n]);
        assert tokens[stray..] == tokens[..n][stray..] + [tokens[n]];
        SpelledSnoc(tokens[..n][stray..], tokens[n]);
      } else {
        GroupedSpells(tokens[..n], n);
        assert tokens[..n][n..] == [];
      }
    }
  }

  /** The text starts with something that wants to join the cluster before it. */
  predicate StartsJoined(t: Text) {
    && t != []
    && (|| Combines(t[0]) || t[0] == JOINER
        || (|t| > 1 && (Modifier(t[0], t[1]) || (t[0] == VARIATION && t[1] == JOINER))))
  }

  /** How much text at the front is lost for want of a cluster to join. */
  function Lost(t: Text): nat {
    var tokens := Tokens(t, 0, false);
    |Spelled(tokens[..Stray(tokens)])|
  }

  /** The clusters are the text without its stray beginning: all of it exactly when the text does
      not start with something that joins. */
  lemma ClustersSpellTheText(t: Text)
    ensures Lost(t) <= |t| && Flat(Clusters(t)) == t[Lost(t)..]
    ensures Flat(Clusters(t)) == t <==> !StartsJoined(t)
  {
    hide Tokens, Spelled, Grouped, Flat, Stray, StartsJoined;
    var tokens := Tokens(t, 0, false);
    var n := Stray(tokens);
    GroupedSpells(tokens, n);
    TokensSpell(t, 0, false);
    SpelledSplit(tokens, n);
    Whole(t, Spelled(tokens[..n]), Spelled(tokens[n..]));
    FrontIsLost(t);
  }

  lemma Whole(t: Text, a: Text, b: Text)
    requires t[0..] == a + b
    ensures |a| <= |t| && t[|a|..] == b && (b == t <==> |a| == 0)
  {
    assert t == a + b;
  }

  lemma FrontIsLost(t: Text)
    ensures Lost(t) > 0 <==> StartsJoined(t)
  {
    if t != [] {
      FirstToken(t);
      hide Tokens, StartsJoined;
      var tokens := Tokens(t, 0, false);
      var n := Stray(tokens);
      if n > 0 {
        assert tokens[..n][0] == tokens[0];
        assert |Spelled(tokens[..n])| >= |tokens[0].text|;
      }
    }
  }

  lemma FirstToken(t: Text)
    requires t != []
    ensures var tokens := Tokens(t, 0, false);
            tokens != [] && tokens[0].text != [] && (tokens[0].joins <==> StartsJoined(t))
  {
    var rest := Tokens(t, |Step(t, 0, false).0.text|, Step(t, 0, false).1);
    assert Tokens(t, 0, false) == [Step(t, 0, false).0] + rest;
    hide Tokens;
  }

  /** A text that is only a joiner is lost. */
  lemma StrayJoinerIsLost(t: Text)
    requires t == [JOINER]
    ensures Clusters(t) == [] && StartsJoined(t)
  {
    assert t[0..1] == [JOINER];
    assert Step(t, 0, false) == (Token([JOINER], true), true);
    assert Tokens(t, 1, true) == [];
    assert Tokens(t, 0, false) == [Token([JOINER], true)];
    Appended([], Token([JOINER], true));
    assert [] + [Token([JOINER], true)] == [Token([JOINER], true)];
  }

  lemma {:induction false} SpelledSplit(tokens: seq<Token>, n: nat)
    requires n <= |tokens|
    ensures Spelled(tokens) == Spelled(tokens[..n]) + Spelled(tokens[n..])
  {
    if n == 0 {
      assert tokens[0..] == tokens;
      assert Spelled(tokens[..0]) == [];
    } else {
      SpelledSplit(tokens[1..], n - 1);
      assert tokens[..n][1..] == tokens[1..][..n - 1] && tokens[n..] == tokens[1..][n - 1..];
    }
  }

  // ----- no surrogate pair is split -----

  function Last(t: Text): nat
    requires t != []
  {
    t[|t| - 1]
  }

  /** A cut between two pieces does not separate the halves of a surrogate pair. */
  ghost predicate CleanCut(a: Text, b: Text) {
    a != [] && b != [] ==> !(High(Last(a)) && Low(b[0]))
  }

  ghost predicate CleanTokens(tokens: seq<Token>) {
    && (forall k | 0 <= k < |tokens| :: tokens[k].text != [])
    && forall k | 0 < k < |tokens| :: CleanCut(tokens[k - 1].text, tokens[k].text)
  }

  lemma {:induction false} TokensAreClean(t: Text, s: nat, joining: bool)
    requires s <= |t|
    ensures CleanTokens(Tokens(t, s, joining))
    ensures s < |t| ==> Tokens(t, s, joining) != [] && Tokens(t, s, joining)[0].text != []
                        && Tokens(t, s, joining)[0].text[0] == t[s]
    decreases |t| - s
  {
    if s < |t| {
      var (token, pending) := Step(t, s, joining);
      var next := s + |token.text|;
      TokensAreClean(t, next, pending);
      assert Tokens(t, s, joining) == [token] + Tokens(t, next, pending);
      if next < |t| {
        EndsCleanly(t, s, joining);
      }
    }
  }

  /** A step that ends on the first half of a pair does so because the second half is missing. */
  lemma EndsCleanly(t: Text, s: nat, joining: bool)
    requires s < |t|
    ensures var (token, _) := Step(t, s, joining); var next := s + |token.text|;
            token.text[0] == t[s] && (next < |t| ==> !(High(Last(token.text)) && Low(t[next])))
  {
  }

  ghost predicate CleanClusters(clusters: seq<Text>) {
    && (forall k | 0 <= k < |clusters| :: clusters[k] != [])
    && forall k | 0 < k < |clusters| :: CleanCut(clusters[k - 1], clusters[k])
  }

  lemma {:induction false} GroupedIsClean(tokens: seq<Token>)
    requires CleanTokens(tokens)
    ensures CleanClusters(Grouped(tokens))
    ensures Grouped(tokens) != []
            ==> tokens != [] && Last(Grouped(tokens)[|Grouped(tokens)| - 1]) == Last(tokens[|tokens| - 1].text)
  {
    if tokens != [] {
      var n := |tokens| - 1;
      GroupedIsClean(tokens[..n]);
    }
  }

  /** No cluster ends inside a surrogate pair, and none is empty. */
  lemma ClustersKeepPairsTogether(t: Text)
    ensures CleanClusters(Clusters(t))
  {
    TokensAreClean(t, 0, false);
    GroupedIsClean(Tokens(t, 0, false));
  }

  // ----- which pairs join the cluster before them -----

  predicate PairAt(t: Text, p: nat) {
    p < |t| && High(t[p]) && LowAt(t, p + 1)
  }

  /** A joiner stands before position `s` with no glued pair between. */
  ghost predicate Pending(t: Text, s: nat)
    decreases s, 0
  {
    exists j :: 0 <= j < s && JoinerAt(t, j) && forall q | j < q < s :: !Glued(t, q)
  }

  predicate ToneAt(t: Text, p: nat) {
    p + 1 < |t| && Modifier(t[p], t[p + 1])
  }

  predicate JoinerAt(t: Text, j: nat) {
    j < |t| && t[j] == JOINER
  }

  /** A pair that is a skin tone, or that finds a joiner pending. */
  ghost predicate Glued(t: Text, p: nat)
    decreases p, 1
  {
    PairAt(t, p) && (ToneAt(t, p) || Pending(t, p))
  }

  lemma PendingOn(t: Text, s: nat)
    requires s < |t|
    ensures JoinerAt(t, s) ==> Pending(t, s + 1)
    ensures !JoinerAt(t, s) ==> (Pending(t, s + 1) <==> Pending(t, s) && !Glued(t, s))
  {
    if Pending(t, s + 1) && !JoinerAt(t, s) {
      var j :| 0 <= j < s + 1 && JoinerAt(t, j) && forall q | j < q < s + 1 :: !Glued(t, q);
      assert j < s && !Glued(t, s);
    }
    if Pending(t, s) && !Glued(t, s) {
      var j :| 0 <= j < s && JoinerAt(t, j) && forall q | j < q < s :: !Glued(t, q);
      assert forall q | j < q < s + 1 :: !Glued(t, q);
    }
  }

  /** One step: the flag says what is pending, and a pair is one token that joins if it is glued. */
  lemma StepFollows(t: Text, s: nat, joining: bool)
    requires s < |t| && joining == Pending(t, s)
    ensures var (token, pending) := Step(t, s, joining);
            && pending == Pending(t, s + |token.text|)
            && (PairAt(t, s) ==> |token.text| == 2 && (token.joins <==> Glued(t, s)))
            && (|token.text| == 2 ==> !PairAt(t, s + 1))
  {
    PendingOn(t, s);
    if s + 1 < |t| {
      PendingOn(t, s + 1);
    }
    assert PairAt(t, s) ==> !PairAt(t, s + 1);
  }

  /** Where the tokens that start a cluster stand. */
  function Starts(tokens: seq<Token>): seq<nat> {
    if tokens == [] then []
    else
      var n := |tokens| - 1;
      Starts(tokens[..n]) + if tokens[n].joins then [] else [|Spelled(tokens[..n])|]
  }

  lemma StartsLast(tokens: seq<Token>, p: int)
    requires tokens != []
    ensures var n := |tokens| - 1;
            p in Starts(tokens) <==> p in Starts(tokens[..n]) || (p == |Spelled(tokens[..n])| && !tokens[n].joins)
  {
    hide Spelled;
  }

  lemma SpelledCons(token: Token, tokens: seq<Token>)
    ensures Spelled([token] + tokens) == token.text + Spelled(tokens)
  {
    assert ([token] + tokens)[1..] == tokens;
  }

  lemma StartsNone(p: int)
    ensures p !in Starts([]) && |Spelled([])| == 0
  {
  }

  lemma {:induction false} StartsCons(token: Token, tokens: seq<Token>, p: int)
    ensures p in Starts([token] + tokens) <==> (p == 0 && !token.joins) || p - |token.text| in Starts(tokens)
    decreases |tokens|
  {
    hide Starts, Spelled;
    var all := [token] + tokens;
    StartsLast(all, p);
    if tokens == [] {
      StartsNone(p);
      StartsNone(p - |token.text|);
      assert all[..|all| - 1] == [];
    } else {
      var n := |tokens| - 1;
      assert all[..|all| - 1] == [token] + tokens[..n];
      StartsCons(token, tokens[..n], p);
      SpelledCons(token, tokens[..n]);
      StartsLast(tokens, p - |token.text|);
    }
  }

  /** A pair starts a cluster of its own unless it is glued. */
  lemma {:induction false} PairsFrom(t: Text, s: nat, joining: bool, p: nat)
    requires s <= p && PairAt(t, p) && joining == Pending(t, s)
    ensures p - s in Starts(Tokens(t, s, joining)) <==> !Glued(t, p)
    decreases |t| - s
  {
    hide Step, Glued, Pending, High, LowAt, Combines, Modifier;
    var (token, pending) := Step(t, s, joining);
    var next := s + |token.text|;
    var rest := Tokens(t, next, pending);
    assert Tokens(t, s, joining) == [token] + rest;
    StepFollows(t, s, joining);
    hide Tokens, Starts, PairAt;
    StartsCons(token, rest, p - s);
    if p == s {
      assert |token.text| == 2;
      NoNegativeStart(Starts(rest), p - s - |token.text|);
    } else {
      assert next <= p;
      PairsFrom(t, next, pending, p);
    }
  }

  lemma NoNegativeStart(starts: seq<nat>, k: int)
    requires k < 0
    ensures k !in starts
  {
  }

  lemma {:induction false} StartsCount(tokens: seq<Token>)
    ensures |Starts(tokens)| == |Grouped(tokens)|
  {
    if tokens != [] {
      StartsCount(tokens[..|tokens| - 1]);
    }
  }

  /** The clusters begin at the starting tokens. */
  lemma {:induction false} ClustersStart(tokens: seq<Token>, stray: nat, k: nat)
    requires stray <= |tokens| && (forall j | 0 <= j < stray :: tokens[j].joins)
             && (stray < |tokens| ==> !tokens[stray].joins)
    requires k < |Grouped(tokens)|
    ensures k < |Starts(tokens)| && Starts(tokens)[k] == |Spelled(tokens[..stray])| + |Flat(Grouped(tokens)[..k])|
  {
    hide Spelled, Flat;
    GroupedSpells(tokens, stray);
    var n := |tokens| - 1;
    var before := Grouped(tokens[..n]);
    assert stray <= n;
    assert tokens[..n][..stray] == tokens[..stray];
    StartsCount(tokens);
    StartsCount(tokens[..n]);
    if k < |before| {
      ClustersStart(tokens[..n], stray, k);
      assert Grouped(tokens)[..k] == before[..k];
    } else {
      GroupedSpells(tokens[..n], stray);
      SpelledSplit(tokens[..n], stray);
      assert Grouped(tokens)[..k] == before;
    }
  }

  /** A surrogate pair starts a cluster of its own, or joins the one before it exactly when it is a
      skin tone or some joiner lies between it and the last pair that joined. */
  lemma PairsJoinIff(t: Text, p: nat)
    requires PairAt(t, p)
    ensures Glued(t, p) <==> !exists k :: 0 <= k < |Clusters(t)| && p == Lost(t) + |Flat(Clusters(t)[..k])|
  {
    hide Glued, Tokens, Grouped, Flat, Spelled, Stray;
    var tokens := Tokens(t, 0, false);
    NothingPending(t);
    PairsFrom(t, 0, false, p);
    StartsCount(tokens);
    forall k | 0 <= k < |Clusters(t)|
      ensures Starts(tokens)[k] == Lost(t) + |Flat(Clusters(t)[..k])|
    {
      ClustersStart(tokens, Stray(tokens), k);
    }
    assert p - 0 == p;
  }

  // ----- where clusters begin -----

  /** The second unit of a pair, or of a variation selector with its joiner. */
  predicate InsideAt(t: Text, p: nat) {
    0 < p < |t| && (PairAt(t, p - 1) || (t[p - 1] == VARIATION && t[p] == JOINER))
  }

  /** What attaches to the cluster before it: a combining mark, a joiner, a variation selector with a
      joiner, or a pair that is glued. */
  ghost predicate JoinsAt(t: Text, p: nat)
    requires p < |t|
  {
    || Combines(t[p]) || t[p] == JOINER
    || (t[p] == VARIATION && p + 1 < |t| && t[p + 1] == JOINER)
    || Glued(t, p)
  }

  lemma StepIs(t: Text, s: nat, joining: bool)
    requires s < |t| && joining == Pending(t, s) && !InsideAt(t, s)
    ensures var (token, pending) := Step(t, s, joining);
            && pending == Pending(t, s + |token.text|)
            && (token.joins <==> JoinsAt(t, s))
            && (|token.text| == 2 <==> InsideAt(t, s + 1))
            && !InsideAt(t, s + |token.text|)
  {
    StepFollows(t, s, joining);
    hide Glued, Pending;
    NotAPair(t, s);
  }

  lemma NotAPair(t: Text, p: nat)
    ensures !PairAt(t, p) ==> !Glued(t, p)
  {
  }

  lemma {:induction false} UnitsFrom(t: Text, s: nat, joining: bool, p: nat)
    requires s <= p < |t| && joining == Pending(t, s) && !InsideAt(t, s)
    ensures p - s in Starts(Tokens(t, s, joining)) <==> !InsideAt(t, p) && !JoinsAt(t, p)
    decreases |t| - s
  {
    hide Step, Glued, Pending, JoinsAt, InsideAt, PairAt, Starts, Tokens;
    var (token, pending) := Step(t, s, joining);
    var next := s + |token.text|;
    StepIs(t, s, joining);
    UnitStart(t, s, joining, p);
    if p >= next {
      UnitsFrom(t, next, pending, p);
    }
  }

  /** Whether a position starts a cluster, by the step at `s` or by the steps behind it. */
  lemma UnitStart(t: Text, s: nat, joining: bool, p: nat)
    requires s <= p < |t|
    ensures var (token, pending) := Step(t, s, joining);
            var next := s + |token.text|;
            && (p == s ==> (p - s in Starts(Tokens(t, s, joining)) <==> !token.joins))
            && (s < p < next ==> p - s !in Starts(Tokens(t, s, joining)))
            && (p >= next ==>
                  (p - s in Starts(Tokens(t, s, joining)) <==> p - next in Starts(Tokens(t, next, pending))))
  {
    hide Step, Starts;
    var (token, pending) := Step(t, s, joining);
    var next := s + |token.text|;
    var rest := Tokens(t, next, pending);
    assert Tokens(t, s, joining) == [token] + rest;
    hide Tokens;
    StartsCons(token, rest, p - s);
    if p < next {
      NoNegativeStart(Starts(rest), p - s - |token.text|);
    }
  }

  /** Where the clusters begin, unit by unit. */
  lemma ClustersBeginIff(t: Text, p: nat)
    requires p < |t|
    ensures (exists k :: 0 <= k < |Clusters(t)| && p == Lost(t) + |Flat(Clusters(t)[..k])|)
       <==> !InsideAt(t, p) && !JoinsAt(t, p)
  {
    hide Glued, Tokens, Grouped, Flat, Spelled, Stray, JoinsAt, PairAt;
    var tokens := Tokens(t, 0, false);
    NothingPending(t);
    UnitsFrom(t, 0, false, p);
    StartsCount(tokens);
    forall k | 0 <= k < |Clusters(t)|
      ensures Starts(tokens)[k] == Lost(t) + |Flat(Clusters(t)[..k])|
    {
      ClustersStart(tokens, Stray(tokens), k);
    }
    assert p - 0 == p;
  }

  lemma NothingPending(t: Text)
    ensures !Pending(t, 0)
  {
  }

  // ----- joiners that reach too far -----

  /** A pair that is glued neither as a skin tone nor by the joiner directly before it. */
  ghost predicate FarGlued(t: Text, p: nat) {
    Glued(t, p) && !ToneAt(t, p) && !(p > 0 && JoinerAt(t, p - 1))
  }

  /** The first pair behind position `j`. */
  ghost predicate NextPair(t: Text, j: nat, p: nat) {
    j < p && PairAt(t, p) && forall q | j < q < p :: !PairAt(t, q)
  }

  /** The next pair behind a joiner, if there is one, is a skin tone or stands directly behind a joiner. */
  ghost predicate JoinersAdjacent(t: Text) {
    forall j: nat, p: nat | JoinerAt(t, j) && NextPair(t, j, p) :: ToneAt(t, p) || JoinerAt(t, p - 1)
  }

  lemma {:induction false} FirstPair(t: Text, j: nat, p: nat) returns (q: nat)
    requires j < p && PairAt(t, p)
    ensures q <= p && NextPair(t, j, q)
    decreases p
  {
    hide PairAt;
    if r :| j < r < p && PairAt(t, r) {
      q := FirstPair(t, j, r);
    } else {
      q := p;
    }
  }

  lemma NextPairIsGlued(t: Text, j: nat, p: nat)
    requires JoinerAt(t, j) && NextPair(t, j, p)
    ensures Glued(t, p)
  {
    assert forall q | j < q < p :: !Glued(t, q);
    assert Pending(t, p);
  }

  /** No pair is glued from afar if and only if joiners and pairs stand as they should. */
  lemma NoneFarGluedIff(t: Text)
    ensures (forall p: nat :: !FarGlued(t, p)) <==> JoinersAdjacent(t)
  {
    hide Glued, Pending, ToneAt, PairAt;
    if JoinersAdjacent(t) {
      forall p: nat ensures !FarGlued(t, p) {
        if FarGlued(t, p) {
          var j := GluedByNext(t, p);
        }
      }
    } else {
      var j: nat, p: nat :| JoinerAt(t, j) && NextPair(t, j, p) && !ToneAt(t, p) && !JoinerAt(t, p - 1);
      NextPairIsGlued(t, j, p);
      assert FarGlued(t, p);
    }
  }

  /** A pair that is glued without being a skin tone is the next pair behind some joiner. */
  lemma GluedByNext(t: Text, p: nat) returns (j: nat)
    requires Glued(t, p) && !ToneAt(t, p)
    ensures JoinerAt(t, j) && NextPair(t, j, p)
  {
    assert Pending(t, p);
    j :| 0 <= j < p && JoinerAt(t, j) && forall q | j < q < p :: !Glued(t, q);
    var q := FirstPair(t, j, p);
    NextPairIsGlued(t, j, q);
  }

  /** A joiner stays pending across letters: an emoji after `a`, joiner, `b` is glued to the `b`. */
  lemma PendingJoinerReachesTooFar(t: Text)
    requires t == [97, JOINER, 98, 0xD83D, 0xDE00]
    ensures Clusters(t) == [[97, JOINER], [98, 0xD83D, 0xDE00]] && FarGlued(t, 3)
  {
    assert NextPair(t, 1, 3);
    NextPairIsGlued(t, 1, 3);
    var a, j, b, e := Token([97], false), Token([JOINER], true), Token([98], false), Token([0xD83D, 0xDE00], true);
    FourSteps(t, a, j, b, e);
    hide Tokens, Glued;
    FourGrouped(a, j, b, e);
    assert a.text + j.text == [97, JOINER] && b.text + e.text == [98, 0xD83D, 0xDE00];
  }

  lemma FourSteps(t: Text, a: Token, j: Token, b: Token, e: Token)
    requires t == [97, JOINER, 98, 0xD83D, 0xDE00]
    requires a == Token([97], false) && j == Token([JOINER], true) && b == Token([98], false)
             && e == Token([0xD83D, 0xDE00], true)
    ensures Tokens(t, 0, false) == [a, j, b, e]
  {
    assert t[3..5] == e.text && t[2..3] == b.text && t[1..2] == j.text && t[0..1] == a.text;
    assert Step(t, 3, true) == (e, false) && Step(t, 2, true) == (b, true);
    assert Step(t, 1, false) == (j, true) && Step(t, 0, false) == (a, false);
    hide Step;
    assert Tokens(t, 5, false) == [];
    assert Tokens(t, 3, true) == [e] && Tokens(t, 2, true) == [b, e];
    assert Tokens(t, 1, false) == [j, b, e];
  }

  lemma FourGrouped(a: Token, j: Token, b: Token, e: Token)
    requires !a.joins && j.joins && !b.joins && e.joins
    ensures Grouped([a, j, b, e]) == [a.text + j.text, b.text + e.text]
  {
    GroupedStarts([a]);
    Appended([], a);
    Appended([a], j);
    Appended([a, j], b);
    Appended([a, j, b], e);
    hide Grouped;
    assert [] + [a] == [a] && [a] + [j] == [a, j] && [a, j] + [b] == [a, j, b] && [a, j, b] + [e] == [a, j, b, e];
  }

  lemma Appended(done: seq<Token>, token: Token)
    ensures Grouped(done + [token]) == Extended(Grouped(done), token)
  {
    assert (done + [token])[..|done|] == done;
  }
}
