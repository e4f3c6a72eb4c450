/** Reading a written tag back: its attributes, with their values. */
module TagReading {
  import opened Wrappers
  import opened Markup
  import opened NodeStream
  import opened MergeStreams
  import B = HighlightBlock

  // ----- an independent reader -----

  /** A character reference, or the character itself. */
  function Decode(s: string): string {
    if s == "" then ""
    else if "&amp;" <= s then "&" + Decode(s[5..])
    else if "&lt;" <= s then "<" + Decode(s[4..])
    else if "&gt;" <= s then ">" + Decode(s[4..])
    else if "&quot;" <= s then "\"" + Decode(s[6..])
    else [s[0]] + Decode(s[1..])
  }

  /** Attributes, each a blank, a name, an equals sign and a value in double quotes. */
  function ReadAttributes(s: string): Option<seq<Attribute>>
    decreases |s|
  {
    if s == "" then Some([])
    else if s[0] != ' ' then None
    else
      match FindChar(s[1..], '=')
      case None => None
      case Some(k) =>
        var value := s[1..][k + 1..];
        if value == "" || value[0] != '"' then None
        else
          match FindChar(value[1..], '"')
          case None => None
          case Some(j) =>
            match ReadAttributes(value[1..][j + 1..])
            case None => None
            case Some(more) => Some([Attribute(s[1..][..k], Decode(value[1..][..j]))] + more)
  }

  predicate PlainNames(attributes: seq<Attribute>) {
    forall a <- attributes :: '=' !in a.name
  }

  // ----- values -----

  lemma {:induction false} DecodeEscape(a: string, rest: string)
    ensures Decode(Escape(a) + rest) == a + Decode(rest)
  {
    hide Escape, Decode, EscapeChar;
    if a == "" {
      EscapeNothing();
      assert "" + rest == rest && a + Decode(rest) == Decode(rest);
    } else {
      EscapeStep(a);
      DecodeEscape(a[1..], rest);
      var more := Escape(a[1..]) + rest;
      Associates(EscapeChar(a[0]), Escape(a[1..]), rest);
      DecodeOne(a[0], more);
      assert [a[0]] + (a[1..] + Decode(rest)) == a + Decode(rest);
    }
  }

  lemma EscapeNothing()
    ensures Escape("") == ""
  {
  }

  lemma DecodeOne(c: char, more: string)
    ensures Decode(EscapeChar(c) + more) == [c] + Decode(more)
  {
    if c == '&' {
      assert ("&amp;" + more)[5..] == more;
    } else if c == '<' {
      assert ("&lt;" + more)[4..] == more && ("&lt;" + more)[1] == 'l';
    } else if c == '>' {
      assert ("&gt;" + more)[4..] == more && ("&gt;" + more)[1] == 'g';
    } else {
      assert ([c] + more)[1..] == more && ([c] + more)[0] == c;
    }
  }

  lemma DecodeQuote(more: string)
    ensures Decode("&quot;" + more) == "\"" + Decode(more)
  {
    assert ("&quot;" + more)[6..] == more && ("&quot;" + more)[1] == 'q';
  }

  lemma {:induction false} EscapeConcat(a: string, b: string)
    ensures Escape(a + b) == Escape(a) + Escape(b)
  {
    hide Escape, EscapeChar;
    if a == "" {
      EscapeNothing();
      assert a + b == b && "" + Escape(b) == Escape(b);
    } else {
      assert (a + b)[1..] == a[1..] + b;
      Associates(EscapeChar(a[0]), Escape(a[1..]), Escape(b));
      EscapeStep(a);
      EscapeStep(a + b);
      EscapeConcat(a[1..], b);
    }
  }

  /** A value with a quote at `i` and none before it: that quote is written as a reference. */
  lemma FirstQuote(v: string, i: nat)
    requires i < |v| && v[i] == '"' && '"' !in v[..i]
    ensures QuoteFirst(Escape(v)) == Escape(v[..i]) + "&quot;" + Escape(v[i + 1..])
  {
    hide Escape, B.Count;
    var a, b := v[..i], v[i + 1..];
    assert v == a + (['"'] + b);
    EscapeConcat(a, ['"'] + b);
    EscapeConcat(['"'], b);
    EscapeOne('"');
    B.EscapeKeepsQuotes(a);
    B.CountZero(a, '"');
    B.CountZero(Escape(a), '"');
    var s := Escape(v);
    assert s == Escape(a) + (['"'] + Escape(b));
    assert s[..|Escape(a)|] == Escape(a) && s[|Escape(a)|] == '"' && s[|Escape(a)| + 1..] == Escape(b);
    FindFirst(s, |Escape(a)|, '"');
  }

  lemma NoQuoteAtAll(v: string)
    requires '"' !in v
    ensures QuoteFirst(Escape(v)) == Escape(v)
  {
    B.EscapeKeepsQuotes(v);
    B.CountZero(v, '"');
    B.CountZero(Escape(v), '"');
  }

  /** A value with at most one quote is read back as it was. */
  lemma ValueReadsBack(v: string)
    requires B.Count(v, '"') <= 1
    ensures Decode(QuoteFirst(Escape(v))) == v
  {
    hide Escape, Decode, QuoteFirst;
    if '"' in v {
      match FindChar(v, '"')
      case Some(i) =>
        FirstQuote(v, i);
        DecodeEscape(v[..i], "&quot;" + Escape(v[i + 1..]));
        DecodeQuote(Escape(v[i + 1..]));
        DecodeEscape(v[i + 1..], "");
        DecodeNothing();
        Associates(Escape(v[..i]), "&quot;", Escape(v[i + 1..]));
        assert Escape(v[i + 1..]) + "" == Escape(v[i + 1..]);
        assert v == v[..i] + ("\"" + (v[i + 1..] + ""));
      case None =>
        B.FindNone(v, '"');
        assert false;
    } else {
      NoQuoteAtAll(v);
      DecodeEscape(v, "");
      DecodeNothing();
      assert Escape(v) + "" == Escape(v) && v + "" == v;
    }
  }

  lemma DecodeNothing()
    ensures Decode("") == ""
  {
  }

  /** A value with more quotes is cut at the second one. */
  lemma ValueIsCut(v: string) returns (n: nat)
    requires B.Count(v, '"') > 1
    ensures n < |v| && v[n] == '"'
    ensures FindChar(QuoteFirst(Escape(v)), '"').Some?
    ensures Decode(QuoteFirst(Escape(v))[..FindChar(QuoteFirst(Escape(v)), '"').value]) == v[..n]
  {
    hide Escape, Decode, QuoteFirst, B.Count;
    B.CountZero(v, '"');
    var i := FirstOf(v);
    var b := v[i + 1..];
    CountsOn(v, i);
    B.CountZero(b, '"');
    var k := FirstOf(b);
    n := i + 1 + k;
    FirstQuote(v, i);
    EscapedAt(b, k);
    var head := Escape(v[..i]) + "&quot;" + Escape(b[..k]);
    var s := QuoteFirst(Escape(v));
    assert s == head + (['"'] + Escape(b[k + 1..]));
    NoQuoteInside(v[..i], b[..k]);
    assert s[..|head|] == head && s[|head|] == '"';
    FindFirst(s, |head|, '"');
    DecodeEscape(v[..i], "&quot;" + Escape(b[..k]));
    DecodeQuote(Escape(b[..k]));
    DecodeEscape(b[..k], "");
    DecodeNothing();
    Associates(Escape(v[..i]), "&quot;", Escape(b[..k]));
    assert Escape(b[..k]) + "" == Escape(b[..k]) && b[..k] + "" == b[..k];
    assert v[..n] == v[..i] + ("\"" + b[..k]);
  }

  lemma FirstOf(s: string) returns (k: nat)
    requires '"' in s
    ensures k < |s| && s[k] == '"' && '"' !in s[..k]
  {
    match FindChar(s, '"')
    case Some(j) => k := j;
    case None =>
      B.FindNone(s, '"');
      assert false;
  }

  lemma CountsOn(v: string, i: nat)
    requires i < |v| && v[i] == '"' && '"' !in v[..i]
    ensures B.Count(v, '"') == 1 + B.Count(v[i + 1..], '"')
  {
    assert v == v[..i] + (['"'] + v[i + 1..]);
    B.CountConcat(v[..i], ['"'] + v[i + 1..], '"');
    B.CountZero(v[..i], '"');
    assert (['"'] + v[i + 1..])[1..] == v[i + 1..];
  }

  lemma EscapedAt(b: string, k: nat)
    requires k < |b| && b[k] == '"'
    ensures Escape(b) == Escape(b[..k]) + (['"'] + Escape(b[k + 1..]))
  {
    assert b == b[..k] + (['"'] + b[k + 1..]);
    EscapeConcat(b[..k], ['"'] + b[k + 1..]);
    EscapeConcat(['"'], b[k + 1..]);
    EscapeOne('"');
    hide Escape;
  }

  lemma NoQuoteInside(a: string, b: string)
    requires '"' !in a && '"' !in b
    ensures '"' !in Escape(a) + "&quot;" + Escape(b)
  {
    B.EscapeKeepsQuotes(a);
    B.CountZero(a, '"');
    B.CountZero(Escape(a), '"');
    B.EscapeKeepsQuotes(b);
    B.CountZero(b, '"');
    B.CountZero(Escape(b), '"');
    hide Escape, B.Count;
  }

  // ----- attributes -----

  lemma NameEnds(name: string, value: string)
    requires '=' !in name
    ensures var s := name + ("=\"" + value);
            FindChar(s, '=') == Some(|name|) && s[..|name|] == name && s[|name| + 1..] == ['"'] + value
  {
    var s := name + ("=\"" + value);
    assert s[..|name|] == name && s[|name|] == '=';
    FindFirst(s, |name|, '=');
  }

  lemma ReadUnfolds(s: string, k: nat, quoted: string, j: nat)
    requires s != "" && s[0] == ' ' && FindChar(s[1..], '=') == Some(k) && s[1..][k + 1..] == quoted
    requires quoted != "" && quoted[0] == '"' && FindChar(quoted[1..], '"') == Some(j)
    ensures ReadAttributes(s)
         == match ReadAttributes(quoted[1..][j + 1..])
            case None => None
            case Some(more) => Some([Attribute(s[1..][..k], Decode(quoted[1..][..j]))] + more)
  {
    hide Decode, FindChar;
  }

  lemma ReadsOne(a: Attribute, value: string, j: nat)
    requires '=' !in a.name && FindChar(value, '"') == Some(j)
    ensures ReadAttributes(" " + a.name + "=\"" + value)
         == match ReadAttributes(value[j + 1..])
            case None => None
            case Some(more) => Some([Attribute(a.name, Decode(value[..j]))] + more)
  {
    hide Decode, FindChar;
    var s, quoted := " " + a.name + "=\"" + value, ['"'] + value;
    NameEnds(a.name, value);
    assert s == " " + (a.name + ("=\"" + value));
    assert s != "" && s[0] == ' ' && s[1..] == a.name + ("=\"" + value);
    assert quoted[1..] == value && quoted[0] == '"';
    ReadUnfolds(s, |a.name|, quoted, j);
  }

  function OneText(a: Attribute, tail: string): string {
    " " + a.name + "=\"" + (QuoteFirst(Escape(a.value)) + ("\"" + tail))
  }

  lemma NothingRead()
    ensures AttributeText([]) == "" && ReadAttributes("") == Some([])
  {
  }

  lemma AttributeTextFirst(attributes: seq<Attribute>)
    requires attributes != []
    ensures AttributeText(attributes) == OneText(attributes[0], AttributeText(attributes[1..]))
  {
    hide Escape, QuoteFirst;
  }

  lemma WholeValue(a: Attribute, tail: string)
    requires '=' !in a.name && B.Count(a.value, '"') <= 1
    ensures ReadAttributes(OneText(a, tail))
         == match ReadAttributes(tail) case None => None case Some(more) => Some([a] + more)
  {
    hide Decode, Escape, QuoteFirst, B.Count, ReadAttributes;
    B.AttributeIsWholeIffOneQuote(a.value);
    ValueReadsBack(a.value);
    var q := QuoteFirst(Escape(a.value));
    var value := q + ("\"" + tail);
    assert value[..|q|] == q && value[|q|] == '"' && value[|q| + 1..] == tail;
    FindFirst(value, |q|, '"');
    ReadsOne(a, value, |q|);
  }

  lemma CutValue(a: Attribute, tail: string)
    requires '=' !in a.name && B.Count(a.value, '"') > 1
    ensures var r := ReadAttributes(OneText(a, tail)); r.Some? ==> r.value != [] && r.value[0] != a
  {
    hide Decode, Escape, QuoteFirst, B.Count, ReadAttributes;
    var n := ValueIsCut(a.value);
    var q := QuoteFirst(Escape(a.value));
    var value := q + ("\"" + tail);
    var j := FindChar(q, '"').value;
    assert value[..j] == q[..j] && value[j] == '"';
    FindFirst(value, j, '"');
    ReadsOne(a, value, j);
    assert |a.value[..n]| < |a.value|;
  }

  /** The attributes that are written are read back, names and values, if and only if no value has more
      than one quote. */
  lemma {:induction false} AttributesReadBackIff(attributes: seq<Attribute>)
    requires PlainNames(attributes)
    ensures ReadAttributes(AttributeText(attributes)) == Some(attributes)
       <==> forall a <- attributes :: B.Count(a.value, '"') <= 1
  {
    hide B.Count, ReadAttributes, AttributeText, OneText;
    if attributes == [] {
      NothingRead();
    } else {
      var a, more := attributes[0], attributes[1..];
      AttributesReadBackIff(more);
      AttributeTextFirst(attributes);
      assert attributes == [a] + more;
      if B.Count(a.value, '"') <= 1 {
        WholeValue(a, AttributeText(more));
        SameTail(a, more, ReadAttributes(AttributeText(more)));
      } else {
        CutValue(a, AttributeText(more));
      }
    }
  }

  // ----- whole tags -----

  /** A tag: its name, up to the first blank, and its attributes. */
  function ReadTag(body: string): Option<Element> {
    var n := match FindChar(body, ' ') case None => |body| case Some(k) => k;
    match ReadAttributes(body[n..])
    case None => None
    case Some(attributes) => Some(Element(body[..n], attributes))
  }

  /** An opening tag is read back as the element it was written for if and only if no value has more
      than one quote. */
  lemma TagReadsBackIff(el: Element)
    requires ' ' !in el.name && PlainNames(el.attributes)
    ensures ReadTag(OpenBody(el)) == Some(el) <==> forall a <- el.attributes :: B.Count(a.value, '"') <= 1
  {
    hide B.Count, ReadAttributes, AttributeText;
    AttributesReadBackIff(el.attributes);
    var text := AttributeText(el.attributes);
    var body := OpenBody(el);
    AttributesBegin(el.attributes);
    assert body[..|el.name|] == el.name && body[|el.name|..] == text;
    if text == "" {
      assert body == el.name;
      NoBlank(body);
    } else {
      FindFirst(body, |el.name|, ' ');
    }
  }

  lemma NoBlank(s: string)
    requires ' ' !in s
    ensures FindChar(s, ' ') == None
  {
  }

  lemma AttributesBegin(attributes: seq<Attribute>)
    ensures AttributeText(attributes) != "" ==> AttributeText(attributes)[0] == ' '
  {
  }

  lemma SameTail(a: Attribute, more: seq<Attribute>, r: Option<seq<Attribute>>)
    ensures (match r case None => None case Some(l) => Some([a] + l)) == Some([a] + more) <==> r == Some(more)
  {
    if r.Some? && [a] + r.value == [a] + more {
      assert r.value == ([a] + r.value)[1..] == ([a] + more)[1..] == more;
    }
  }
}
