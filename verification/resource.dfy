/**
 * `Resource`: renders a URL from a base-URI template, a path template and
 * query parameters. Templates hold `{name}` placeholders, filled from the
 * matching parameter record; query parameters are written with qs, arrays
 * comma-joined, except `refine`, which is written last in repeated form.
 */
module Resources {
  import opened Wrappers
  import opened Text
  import opened Records
  import opened PercentEncoding
  import opened QueryParsing

  // ---------------------------------------------------------------------
  // Templates
  // ---------------------------------------------------------------------

  /** A template is a sequence of literal characters and `{name}` placeholders. */
  datatype Segment = Literal(c: char) | Placeholder(name: string)

  function SegmentText(s: Segment): string
  {
    match s
    case Literal(c) => [c]
    case Placeholder(name) => "{" + name + "}"
  }

  /**
   * One step of the leftmost scan of the global pattern /\{([^}]+)\}/g:
   * at a `{`, the first `}` after it closes a placeholder when at least one
   * character lies between them; otherwise the `{` is an ordinary
   * character. Returns the segment and how many characters it spans.
   * Names are never empty and never hold `}` (they may hold `{`).
   */
  function Next(t: string): (r: (Segment, nat))
    requires |t| > 0
    ensures 1 <= r.1 <= |t| && SegmentText(r.0) == t[..r.1]
    ensures r.0.Placeholder? ==> r.0.name != "" && '}' !in r.0.name
  {
    if t[0] == '{' then
      match IndexOf(t[1..], '}')
      case Some(k) =>
        if k > 0 then
          PlaceholderSpan(t, k);
          (Placeholder(t[1..k + 1]), k + 2)
        else (Literal('{'), 1)
      case None => (Literal('{'), 1)
    else (Literal(t[0]), 1)
  }

  /** A `{` whose first following `}` lies `k` characters further spans a placeholder. */
  lemma PlaceholderSpan(t: string, k: nat)
    requires |t| > 0 && t[0] == '{'
    requires IndexOf(t[1..], '}') == Some(k)
    ensures k + 2 <= |t| && t[..k + 2] == "{" + t[1..k + 1] + "}" && '}' !in t[1..k + 1]
  {
    var u := t[1..];
    assert u[..k] == t[1..k + 1];
    assert t[k + 1] == u[k] == '}';
  }

  /** A template as the scan splits it, left to right. */
  function Segments(t: string): (r: seq<Segment>)
    ensures forall i :: 0 <= i < |r| && r[i].Placeholder? ==> r[i].name != "" && '}' !in r[i].name
    decreases |t|
  {
    if |t| == 0 then [] else [Next(t).0] + Segments(t[Next(t).1..])
  }

  function Unparse(segs: seq<Segment>): string
  {
    if |segs| == 0 then "" else SegmentText(segs[0]) + Unparse(segs[1..])
  }

  /** The scan loses nothing: writing the segments back gives the template. */
  lemma {:induction false} SegmentsRoundTrip(t: string)
    ensures Unparse(Segments(t)) == t
    decreases |t|
  {
    if |t| > 0 {
      var next := Next(t);
      var rest := t[next.1..];
      calc {
        Unparse(Segments(t));
        Unparse([next.0] + Segments(rest));
        { UnparseCons(next.0, Segments(rest)); }
        SegmentText(next.0) + Unparse(Segments(rest));
        { SegmentsRoundTrip(rest); }
        t[..next.1] + rest;
        { SplitAt(t, next.1); }
        t;
      }
    }
  }

  lemma UnparseCons(seg: Segment, segs: seq<Segment>)
    ensures Unparse([seg] + segs) == SegmentText(seg) + Unparse(segs)
  {
    assert ([seg] + segs)[1..] == segs;
  }

  lemma SplitAt(t: string, n: nat)
    requires n <= |t|
    ensures t[..n] + t[n..] == t
  {
  }

  function PlaceholderNames(segs: seq<Segment>): (r: seq<string>)
  {
    if |segs| == 0 then []
    else (if segs[0].Placeholder? then [segs[0].name] else []) + PlaceholderNames(segs[1..])
  }

  /** The placeholder names of a template, left to right. */
  function Placeholders(t: string): seq<string>
  {
    PlaceholderNames(Segments(t))
  }

  /** The error `substitutePathParameters` throws. */
  datatype RenderError = MissingParameter(name: string)
  {
    function Message(): string
    {
      "Failed to find a value for required path parameter '" + name + "'"
    }
  }

  /** The message quotes the missing name between the fixed text and a closing `'`. */
  lemma MessageNamesParameter(e: RenderError)
    ensures var m := e.Message();
      var prefix := "Failed to find a value for required path parameter '";
      |m| == |prefix| + |e.name| + 1 && m[..|prefix|] == prefix && m[|prefix|..|m| - 1] == e.name && m[|m| - 1] == '\''
  {
  }

  /** `parameters.hasOwnProperty(name) && parameters[name] !== undefined` */
  predicate Defined(parameters: Record<Option<string>>, name: string)
  {
    name in parameters.values && parameters.values[name].Some?
  }

  /** `name` is undefined and every placeholder before its first occurrence is defined. */
  predicate FirstUndefined(names: seq<string>, parameters: Record<Option<string>>, name: string)
  {
    exists i :: 0 <= i < |names| && names[i] == name && !Defined(parameters, name) &&
      forall j :: 0 <= j < i ==> Defined(parameters, names[j])
  }

  /** Prepends `s` to a successful result; an error passes through. */
  function Prefixed(s: string, r: Result<string, RenderError>): Result<string, RenderError>
  {
    if r.Success? then Success(s + r.value) else r
  }

  /**
   * Replaces each placeholder, left to right, by its value, inserted as it
   * is; the first placeholder without a value raises the error.
   */
  function Fill(segs: seq<Segment>, parameters: Record<Option<string>>): (r: Result<string, RenderError>)
    ensures r.Success? <==> forall n :: n in PlaceholderNames(segs) ==> Defined(parameters, n)
    ensures r.Failure? ==> FirstUndefined(PlaceholderNames(segs), parameters, r.error.name)
  {
    if |segs| == 0 then Success("")
    else
      var rest := Fill(segs[1..], parameters);
      var names := PlaceholderNames(segs);
      match segs[0]
      case Literal(c) =>
        assert names == PlaceholderNames(segs[1..]);
        Prefixed([c], rest)
      case Placeholder(name) =>
        assert names == [name] + PlaceholderNames(segs[1..]);
        if Defined(parameters, name) then
          assert rest.Failure? ==> names[1..] == PlaceholderNames(segs[1..]);
          Prefixed(parameters.values[name].value, rest)
        else
          assert names[0] == name;
          Failure(MissingParameter(name))
  }

  /** `template.replace(/\{([^}]+)\}/g, ...)` with the lookup of `substitutePathParameters`. */
  function Substitute(template: string, parameters: Record<Option<string>>): (r: Result<string, RenderError>)
    ensures r.Success? <==> forall n :: n in Placeholders(template) ==> Defined(parameters, n)
    ensures r.Failure? ==> FirstUndefined(Placeholders(template), parameters, r.error.name)
  {
    Fill(Segments(template), parameters)
  }

  /** `substitutePathParameters(path = "", parameters = {})`: both arguments may be undefined. */
  function SubstitutePathParameters(path: Option<string>, parameters: Option<Record<Option<string>>>): (r: Result<string, RenderError>)
    ensures path.None? ==> r == Success("")
    ensures parameters.None? ==> (r.Success? <==> Placeholders(path.GetOr("")) == [])
  {
    var names := Placeholders(path.GetOr(""));
    assert names != [] ==> names[0] in names && !Defined(Empty(), names[0]);
    Substitute(path.GetOr(""), parameters.GetOr(Empty()))
  }

  function Literals(s: string): (r: seq<Segment>)
    ensures |r| == |s| && forall i :: 0 <= i < |s| ==> r[i] == Literal(s[i])
  {
    seq(|s|, i requires 0 <= i < |s| => Literal(s[i]))
  }

  lemma {:induction false} SegmentsLiteralPrefix(prefix: string, rest: string)
    requires '{' !in prefix
    ensures Segments(prefix + rest) == Literals(prefix) + Segments(rest)
  {
    if |prefix| > 0 {
      assert (prefix + rest)[0] == prefix[0];
      assert (prefix + rest)[1..] == prefix[1..] + rest;
      SegmentsLiteralPrefix(prefix[1..], rest);
      assert Literals(prefix) == [Literal(prefix[0])] + Literals(prefix[1..]);
    } else {
      assert prefix + rest == rest;
    }
  }

  lemma {:induction false} FillLiterals(prefix: string, segs: seq<Segment>, parameters: Record<Option<string>>)
    ensures Fill(Literals(prefix) + segs, parameters) == Prefixed(prefix, Fill(segs, parameters))
  {
    if |prefix| > 0 {
      var all := Literals(prefix) + segs;
      assert all[0] == Literal(prefix[0]);
      assert all[1..] == Literals(prefix[1..]) + segs;
      assert Fill(all, parameters) == Prefixed([prefix[0]], Fill(all[1..], parameters));
      FillLiterals(prefix[1..], segs, parameters);
      PrefixedTwice([prefix[0]], prefix[1..], Fill(segs, parameters));
      assert prefix == [prefix[0]] + prefix[1..];
    } else {
      assert Literals(prefix) + segs == segs;
      assert forall x: string :: "" + x == x;
    }
  }

  lemma PrefixedTwice(a: string, b: string, r: Result<string, RenderError>)
    ensures Prefixed(a, Prefixed(b, r)) == Prefixed(a + b, r)
  {
    if r.Success? {
      assert a + (b + r.value) == a + b + r.value;
    }
  }

  lemma SegmentsPlaceholder(name: string, rest: string)
    requires name != "" && '}' !in name
    ensures Segments("{" + name + "}" + rest) == [Placeholder(name)] + Segments(rest)
  {
    var t := "{" + name + "}" + rest;
    assert t[1..] == name + ['}'] + rest;
    IndexOfSplit(name, '}', rest);
    assert t[1..|name| + 1] == name;
    assert t[|name| + 2..] == rest;
  }

  /** A template without `{` is returned unchanged, whatever the parameters. */
  lemma SubstituteLiteral(t: string, parameters: Record<Option<string>>)
    requires '{' !in t
    ensures Substitute(t, parameters) == Success(t)
  {
    SegmentsLiteralPrefix(t, "");
    assert t + "" == t;
    assert Literals(t) + [] == Literals(t);
    FillLiterals(t, [], parameters);
  }

  /** A template in which the scan finds no placeholder (`{}` and an unclosed `{` included) is returned unchanged. */
  lemma SubstituteUnchanged(t: string, parameters: Record<Option<string>>)
    requires Placeholders(t) == []
    ensures Substitute(t, parameters) == Success(t)
  {
    FillUnparse(Segments(t), parameters);
    SegmentsRoundTrip(t);
  }

  /** Literal segments are written back as they are. */
  lemma {:induction false} FillUnparse(segs: seq<Segment>, parameters: Record<Option<string>>)
    requires PlaceholderNames(segs) == []
    ensures Fill(segs, parameters) == Success(Unparse(segs))
  {
    if |segs| > 0 {
      assert segs[0].Literal?;
      FillUnparse(segs[1..], parameters);
    }
  }

  /**
   * The first placeholder of a template is replaced by its value, inserted
   * verbatim, and the scan goes on after it; a placeholder without a value
   * fails with its name before anything later is looked at.
   */
  lemma SubstitutePlaceholder(prefix: string, name: string, suffix: string, parameters: Record<Option<string>>)
    requires '{' !in prefix
    requires name != "" && '}' !in name
    ensures Defined(parameters, name) ==>
      Substitute(prefix + "{" + name + "}" + suffix, parameters)
        == Prefixed(prefix + parameters.values[name].value, Substitute(suffix, parameters))
    ensures !Defined(parameters, name) ==>
      Substitute(prefix + "{" + name + "}" + suffix, parameters) == Failure(MissingParameter(name))
  {
    var rest := Segments(suffix);
    SubstituteAfterPrefix(prefix, name, suffix, parameters);
    FillPlaceholder(name, rest, parameters);
    if Defined(parameters, name) {
      PrefixedTwice(prefix, parameters.values[name].value, Fill(rest, parameters));
    }
  }

  /** The literal prefix is copied and the placeholder starts the rest of the scan. */
  lemma SubstituteAfterPrefix(prefix: string, name: string, suffix: string, parameters: Record<Option<string>>)
    requires '{' !in prefix
    requires name != "" && '}' !in name
    ensures Substitute(prefix + "{" + name + "}" + suffix, parameters)
      == Prefixed(prefix, Fill([Placeholder(name)] + Segments(suffix), parameters))
  {
    var tail := "{" + name + "}" + suffix;
    calc {
      Substitute(prefix + "{" + name + "}" + suffix, parameters);
      { assert prefix + "{" + name + "}" + suffix == prefix + tail; }
      Fill(Segments(prefix + tail), parameters);
      { SegmentsLiteralPrefix(prefix, tail); }
      Fill(Literals(prefix) + Segments(tail), parameters);
      { FillLiterals(prefix, Segments(tail), parameters); }
      Prefixed(prefix, Fill(Segments(tail), parameters));
      { SegmentsPlaceholder(name, suffix); }
      Prefixed(prefix, Fill([Placeholder(name)] + Segments(suffix), parameters));
    }
  }

  lemma FillPlaceholder(name: string, segs: seq<Segment>, parameters: Record<Option<string>>)
    ensures Defined(parameters, name) ==>
      Fill([Placeholder(name)] + segs, parameters) == Prefixed(parameters.values[name].value, Fill(segs, parameters))
    ensures !Defined(parameters, name) ==>
      Fill([Placeholder(name)] + segs, parameters) == Failure(MissingParameter(name))
  {
    assert ([Placeholder(name)] + segs)[1..] == segs;
  }

  /** `{}` holds no name, so both braces stay in the output. */
  lemma SubstituteEmptyBraces(suffix: string, parameters: Record<Option<string>>)
    ensures Substitute("{}" + suffix, parameters) == Prefixed("{}", Substitute(suffix, parameters))
  {
    calc {
      Substitute("{}" + suffix, parameters);
      Fill(Segments("{}" + suffix), parameters);
      { SegmentsEmptyBraces(suffix); }
      Fill(Literals("{}") + Segments(suffix), parameters);
      { FillLiterals("{}", Segments(suffix), parameters); }
      Prefixed("{}", Substitute(suffix, parameters));
    }
  }

  lemma SegmentsEmptyBraces(suffix: string)
    ensures Segments("{}" + suffix) == Literals("{}") + Segments(suffix)
  {
    var t := "{}" + suffix;
    var u := "}" + suffix;
    calc {
      Segments(t);
      { assert t[0] == '{' && t[1..] == u;
        NextEmptyName(t);
        SegmentsHead(t); }
      [Literal('{')] + Segments(u);
      { assert u[0] == '}' && u[1..] == suffix;
        SegmentsHead(u); }
      [Literal('{')] + ([Literal('}')] + Segments(suffix));
      { assert Literals("{}") == [Literal('{'), Literal('}')]; }
      Literals("{}") + Segments(suffix);
    }
  }

  /** A `{` directly followed by `}` is an ordinary character. */
  lemma NextEmptyName(t: string)
    requires |t| >= 2 && t[0] == '{' && t[1] == '}'
    ensures Next(t) == (Literal('{'), 1)
  {
    assert IndexOf(t[1..], '}') == Some(0);
  }

  lemma SegmentsHead(t: string)
    requires |t| > 0
    ensures Segments(t) == [Next(t).0] + Segments(t[Next(t).1..])
  {
  }

  /** A `{` that no `}` follows stays in the output. */
  lemma SubstituteUnclosed(rest: string, parameters: Record<Option<string>>)
    requires '}' !in rest
    ensures Substitute("{" + rest, parameters) == Prefixed("{", Substitute(rest, parameters))
  {
    var t := "{" + rest;
    assert t[1..] == rest;
    assert Segments(t) == Literals("{") + Segments(rest);
    FillLiterals("{", Segments(rest), parameters);
  }

  // ---------------------------------------------------------------------
  // Query strings
  // ---------------------------------------------------------------------

  /**
   * The integers a JavaScript number holds exactly (`Number.isSafeInteger`).
   * For these, `String(n)` is the plain decimal text.
   */
  type SafeInteger = n: int | -0x1F_FFFF_FFFF_FFFF <= n <= 0x1F_FFFF_FFFF_FFFF

  /** A query value that is not an array (numbers are safe integers here). */
  datatype Scalar = Bool(b: bool) | Num(n: SafeInteger) | Str(s: string)

  /** A query parameter value as JavaScript may hold it. */
  datatype QueryValue = Undefined | Null | Single(scalar: Scalar) | Array(items: seq<Scalar>)

  /** qs's `arrayFormat`: `a=1,2` or `a=1&a=2`. */
  datatype ArrayFormat = Comma | Repeat

  /** `String(x)` */
  function ScalarText(x: Scalar): string
  {
    match x
    case Bool(b) => if b then "true" else "false"
    case Num(n) => IntToString(n)
    case Str(s) => s
  }

  function Texts(xs: seq<Scalar>): (r: seq<string>)
    ensures |r| == |xs| && forall i :: 0 <= i < |xs| ==> r[i] == ScalarText(xs[i])
  {
    seq(|xs|, i requires 0 <= i < |xs| => ScalarText(xs[i]))
  }

  /**
   * The (key, text) pairs qs writes for one value, before percent-encoding:
   * undefined writes nothing, null an empty text; a comma array writes one
   * pair of its comma-joined elements, or nothing when empty; a repeated
   * array writes one pair per element.
   */
  function ValuePairs(key: string, v: QueryValue, format: ArrayFormat): seq<(string, string)>
  {
    match v
    case Undefined => []
    case Null => [(key, "")]
    case Single(x) => [(key, ScalarText(x))]
    case Array(xs) =>
      if format == Repeat then seq(|xs|, i requires 0 <= i < |xs| => (key, ScalarText(xs[i])))
      else if |xs| == 0 then []
      else [(key, Join(Texts(xs), ","))]
  }

  function KeyPairs(keys: seq<string>, values: map<string, QueryValue>, format: ArrayFormat): seq<(string, string)>
    requires forall k :: k in keys ==> k in values
  {
    if |keys| == 0 then []
    else ValuePairs(keys[0], values[keys[0]], format) + KeyPairs(keys[1..], values, format)
  }

  /** The pairs of a whole record, key by key in property order. */
  function RecordPairs(q: Record<QueryValue>, format: ArrayFormat): seq<(string, string)>
  {
    KeyPairs(q.keys, q.values, format)
  }

  function RenderPair(pair: (string, string)): string
  {
    Encode(pair.0) + "=" + Encode(pair.1)
  }

  function RenderPairs(pairs: seq<(string, string)>): (r: seq<string>)
    ensures |r| == |pairs| && forall i :: 0 <= i < |pairs| ==> r[i] == RenderPair(pairs[i])
  {
    seq(|pairs|, i requires 0 <= i < |pairs| => RenderPair(pairs[i]))
  }

  /** `qs.stringify(q, { arrayFormat })` */
  function Stringify(q: Record<QueryValue>, format: ArrayFormat): string
  {
    Join(RenderPairs(RecordPairs(q, format)), "&")
  }

  /** JavaScript truthiness: undefined, null, false, 0 and "" are falsy; every array is truthy. */
  predicate Truthy(v: QueryValue)
  {
    match v
    case Undefined => false
    case Null => false
    case Single(Bool(b)) => b
    case Single(Num(n)) => n != 0
    case Single(Str(s)) => s != ""
    case Array(_) => true
  }

  /** `const { refine } = queryParameters` */
  function Refine(q: Record<QueryValue>): QueryValue
  {
    if "refine" in q.values then q.values["refine"] else Undefined
  }

  /**
   * The query string `toString` builds: every key but `refine` in comma
   * format, then, when `refine` is truthy, `&` and `refine` in repeated
   * format.
   */
  function QueryString(q: Record<QueryValue>): string
  {
    var main := Stringify(Remove(q, "refine"), Comma);
    var refine := Refine(q);
    if Truthy(refine) then main + "&" + Stringify(One("refine", refine), Repeat) else main
  }

  /** The logical (key, text) pairs of the query string, in the order written. */
  function QueryPairs(q: Record<QueryValue>): seq<(string, string)>
  {
    RecordPairs(Remove(q, "refine"), Comma) +
      (if Truthy(Refine(q)) then ValuePairs("refine", Refine(q), Repeat) else [])
  }

  /** Each key and text as the bytes the server reads back. */
  function DecodedText(pairs: seq<(string, string)>): (r: seq<(seq<Byte>, seq<Byte>)>)
    ensures |r| == |pairs|
    ensures forall i :: 0 <= i < |pairs| ==> r[i] == (Utf8String(pairs[i].0), Utf8String(pairs[i].1))
  {
    seq(|pairs|, i requires 0 <= i < |pairs| => (Utf8String(pairs[i].0), Utf8String(pairs[i].1)))
  }

  lemma RenderPairShape(pair: (string, string))
    ensures RenderPair(pair) != "" && '&' !in RenderPair(pair)
  {
    var k, v := Encode(pair.0), Encode(pair.1);
    EncodeAvoids(pair.0);
    EncodeAvoids(pair.1);
    assert (k + "=" + v)[|k|] == '=';
    assert forall c :: c in k + "=" + v ==> c in k || c == '=' || c in v;
  }

  lemma DecodeRenderPair(pair: (string, string))
    ensures DecodePair(RenderPair(pair)) == (Utf8String(pair.0), Utf8String(pair.1))
  {
    EncodeAvoids(pair.0);
    DecodePairAt(Encode(pair.0), Encode(pair.1));
    DecodeEncode(pair.0);
    DecodeEncode(pair.1);
  }

  /** A stringified pair list reads back as those pairs. */
  lemma ParseRendered(pairs: seq<(string, string)>)
    ensures ParseQuery(Join(RenderPairs(pairs), "&")) == DecodedText(pairs)
  {
    var pieces := RenderPairs(pairs);
    forall i | 0 <= i < |pieces|
      ensures pieces[i] != "" && '&' !in pieces[i]
      ensures DecodePair(pieces[i]) == DecodedText(pairs)[i]
    {
      RenderPairShape(pairs[i]);
      DecodeRenderPair(pairs[i]);
    }
    ParseJoin(pieces);
  }

  /**
   * The query string is injective on its pairs: reading it back yields
   * exactly the pairs of every key but `refine`, in order, followed by the
   * `refine` pairs when `refine` is truthy.
   */
  lemma QueryStringRoundTrip(q: Record<QueryValue>)
    ensures ParseQuery(QueryString(q)) == DecodedText(QueryPairs(q))
  {
    var rest := Remove(q, "refine");
    ParseRendered(RecordPairs(rest, Comma));
    if Truthy(Refine(q)) {
      AppendRefine(Stringify(rest, Comma), RecordPairs(rest, Comma), Refine(q));
    } else {
      assert QueryPairs(q) == RecordPairs(rest, Comma) + [];
    }
  }

  /** Appending `&` and the repeated `refine` pairs appends their decoded pairs. */
  lemma AppendRefine(main: string, mainPairs: seq<(string, string)>, v: QueryValue)
    requires ParseQuery(main) == DecodedText(mainPairs)
    ensures ParseQuery(main + "&" + Stringify(One("refine", v), Repeat))
      == DecodedText(mainPairs + ValuePairs("refine", v, Repeat))
  {
    var refinePairs := ValuePairs("refine", v, Repeat);
    OnePairs("refine", v, Repeat);
    ParseRendered(refinePairs);
    AppendParsed(main, mainPairs, Stringify(One("refine", v), Repeat), refinePairs);
  }

  lemma AppendParsed(a: string, aPairs: seq<(string, string)>, b: string, bPairs: seq<(string, string)>)
    requires ParseQuery(a) == DecodedText(aPairs)
    requires ParseQuery(b) == DecodedText(bPairs)
    ensures ParseQuery(a + "&" + b) == DecodedText(aPairs + bPairs)
  {
    ParseAround(a, b);
    DecodedTextAppend(aPairs, bPairs);
  }

  lemma DecodedTextAppend(a: seq<(string, string)>, b: seq<(string, string)>)
    ensures DecodedText(a + b) == DecodedText(a) + DecodedText(b)
  {
    var l, r := DecodedText(a + b), DecodedText(a) + DecodedText(b);
    forall i | 0 <= i < |a + b| ensures l[i] == r[i] {
      if i < |a| {
        assert (a + b)[i] == a[i];
      } else {
        assert (a + b)[i] == b[i - |a|];
      }
    }
  }

  /** The query string is empty exactly when no pair is written and `refine` is falsy. */
  lemma QueryStringEmpty(q: Record<QueryValue>)
    ensures QueryString(q) == "" <==> QueryPairs(q) == [] && !Truthy(Refine(q))
  {
    QueryStringRoundTrip(q);
    assert ParseQuery("") == [] by {
      assert Split("", '&') == [""];
    }
    if Truthy(Refine(q)) {
      var main := Stringify(Remove(q, "refine"), Comma);
      assert QueryString(q)[|main|] == '&';
    }
  }

  /** A record with one own property. */
  function One(key: string, v: QueryValue): Record<QueryValue>
  {
    FromPairs([(key, v)])
  }

  lemma OneEntries(key: string, v: QueryValue)
    ensures One(key, v).keys == [key] && One(key, v).values == map[key := v]
  {
    var pairs := [(key, v)];
    assert pairs[..0] == [];
    var e: Record<QueryValue> := Empty();
    assert FromPairs(pairs) == Put(e, key, v);
  }

  lemma OneStringify(key: string, v: QueryValue, format: ArrayFormat)
    ensures Stringify(One(key, v), format) == Join(RenderPairs(ValuePairs(key, v, format)), "&")
  {
    OnePairs(key, v, format);
  }

  lemma OnePairs(key: string, v: QueryValue, format: ArrayFormat)
    ensures RecordPairs(One(key, v), format) == ValuePairs(key, v, format)
  {
    OneEntries(key, v);
    var keys, values := [key], map[key := v];
    assert KeyPairs(keys, values, format) == ValuePairs(key, v, format) + KeyPairs([], values, format);
  }

  /** With one key other than `refine`, the query string is that key's comma-format pairs. */
  lemma QueryOne(key: string, v: QueryValue)
    requires key != "refine"
    ensures QueryString(One(key, v)) == Join(RenderPairs(ValuePairs(key, v, Comma)), "&")
  {
    OneEntries(key, v);
    var q := One(key, v);
    assert Refine(q) == Undefined;
    assert Without(q.keys, "refine") == [key] + Without([], "refine");
    assert Remove(q, "refine") == q;
    OneStringify(key, v, Comma);
  }

  /** The comma-joined elements of an array, each percent-encoded: the commas become `%2C`. */
  function EncodedTexts(xs: seq<Scalar>): (r: seq<string>)
    ensures |r| == |xs| && forall i :: 0 <= i < |xs| ==> r[i] == Encode(ScalarText(xs[i]))
  {
    seq(|xs|, i requires 0 <= i < |xs| => Encode(ScalarText(xs[i])))
  }

  lemma {:induction false} EncodeJoin(xs: seq<Scalar>)
    requires |xs| > 0
    ensures Encode(Join(Texts(xs), ",")) == Join(EncodedTexts(xs), "%2C")
  {
    assert Encode(",") == "%2C";
    if |xs| > 1 {
      assert Texts(xs)[1..] == Texts(xs[1..]);
      assert EncodedTexts(xs)[1..] == EncodedTexts(xs[1..]);
      EncodeAppend(ScalarText(xs[0]) + ",", Join(Texts(xs[1..]), ","));
      EncodeAppend(ScalarText(xs[0]), ",");
      EncodeJoin(xs[1..]);
    }
  }

  /**
   * How one ordinary query parameter is written: undefined and the empty
   * array write nothing; null writes `key=`, as the empty string does; a
   * scalar writes its encoded text; an array writes its encoded elements
   * joined by `%2C`, so a one-element array is written like its element.
   */
  lemma QueryValueText(key: string, v: QueryValue)
    requires key != "refine"
    ensures v.Undefined? ==> QueryString(One(key, v)) == ""
    ensures v.Null? ==> QueryString(One(key, v)) == Encode(key) + "="
    ensures v.Single? ==> QueryString(One(key, v)) == Encode(key) + "=" + Encode(ScalarText(v.scalar))
    ensures v.Array? && |v.items| == 0 ==> QueryString(One(key, v)) == ""
    ensures v.Array? && |v.items| > 0 ==>
      QueryString(One(key, v)) == Encode(key) + "=" + Join(EncodedTexts(v.items), "%2C")
  {
    QueryOne(key, v);
    if v.Null? {
      assert Encode("") == "";
    }
    if v.Array? && |v.items| > 0 {
      EncodeJoin(v.items);
    }
  }

  lemma QueryNullIsEmptyString(key: string)
    requires key != "refine"
    ensures QueryString(One(key, Null)) == QueryString(One(key, Single(Str(""))))
  {
    QueryValueText(key, Null);
    QueryValueText(key, Single(Str("")));
    assert Encode("") == "";
  }

  lemma QueryArrayOfOne(key: string, x: Scalar)
    requires key != "refine"
    ensures QueryString(One(key, Array([x]))) == QueryString(One(key, Single(x)))
  {
    QueryValueText(key, Array([x]));
    QueryValueText(key, Single(x));
    assert EncodedTexts([x]) == [Encode(ScalarText(x))];
  }

  /**
   * A truthy `refine` on its own still gets its `&`: the query string is
   * `&refine=v1&refine=v2...`, so the URL carries `?&`.
   */
  lemma QueryRefineAlone(v: QueryValue)
    requires Truthy(v)
    ensures QueryString(One("refine", v)) == "&" + Join(RenderPairs(ValuePairs("refine", v, Repeat)), "&")
  {
    var q := One("refine", v);
    var j := Join(RenderPairs(ValuePairs("refine", v, Repeat)), "&");
    assert Refine(q) == v by {
      OneEntries("refine", v);
    }
    assert Stringify(Remove(q, "refine"), Comma) == "" by {
      RemoveOnly("refine", v);
      StringifyEmpty(Remove(q, "refine"), Comma);
    }
    OneStringify("refine", v, Repeat);
    EmptyPrefix("&", j);
  }

  lemma StringifyEmpty(q: Record<QueryValue>, format: ArrayFormat)
    requires q.keys == []
    ensures Stringify(q, format) == ""
  {
  }

  lemma EmptyPrefix(a: string, b: string)
    ensures "" + a + b == a + b
  {
  }

  lemma RemoveOnly(key: string, v: QueryValue)
    ensures Remove(One(key, v), key) == Empty()
  {
    OneEntries(key, v);
    assert Without([key], key) == [] + Without([], key);
    assert map[key := v] - {key} == map[];
  }

  /** A falsy `refine` is dropped altogether; it never reaches the ordinary parameters. */
  lemma QueryRefineFalsy(q: Record<QueryValue>)
    requires !Truthy(Refine(q))
    ensures QueryString(q) == Stringify(Remove(q, "refine"), Comma)
    ensures forall i :: 0 <= i < |QueryPairs(q)| ==> QueryPairs(q)[i].0 != "refine"
  {
    var rest := Remove(q, "refine");
    assert QueryPairs(q) == RecordPairs(rest, Comma) + [];
    KeyPairsKeys(rest.keys, rest.values, Comma);
  }

  lemma {:induction false} KeyPairsKeys(keys: seq<string>, values: map<string, QueryValue>, format: ArrayFormat)
    requires forall k :: k in keys ==> k in values
    ensures forall i :: 0 <= i < |KeyPairs(keys, values, format)| ==> KeyPairs(keys, values, format)[i].0 in keys
  {
    if |keys| > 0 {
      KeyPairsKeys(keys[1..], values, format);
      var head := ValuePairs(keys[0], values[keys[0]], format);
      assert forall i :: 0 <= i < |head| ==> head[i].0 == keys[0];
    }
  }

  // ---------------------------------------------------------------------
  // Resource
  // ---------------------------------------------------------------------

  /** A `Resource` after its constructor has applied the defaults. */
  datatype Resource = Resource(
    baseUri: Option<string>,
    baseUriParameters: Record<Option<string>>,
    path: string,
    pathParameters: Record<Option<string>>,
    queryParameters: Record<QueryValue>)
  {
    /** The base URI, then the path, then `?` and the query string when it is not empty. */
    function ToString(): Result<string, RenderError>
    {
      var renderedBaseUri :- SubstitutePathParameters(baseUri, Some(baseUriParameters));
      var renderedPath :- Substitute(path, pathParameters);
      Success(renderedBaseUri + renderedPath + QueryPart(queryParameters))
    }
  }

  /** `?` and the query string, or nothing when the query string is empty. */
  function QueryPart(q: Record<QueryValue>): string
  {
    var queryString := QueryString(q);
    (if queryString != "" then "?" else "") + queryString
  }

  /**
   * Rendering fails exactly when a placeholder of the base URI or of the
   * path has no value; the base URI is checked first, and the error names
   * the first placeholder without a value.
   */
  lemma RenderFailure(res: Resource)
    ensures var base, path := res.baseUri.GetOr(""), res.path;
      res.ToString().Failure? <==>
        (exists n :: n in Placeholders(base) && !Defined(res.baseUriParameters, n)) ||
        (exists n :: n in Placeholders(path) && !Defined(res.pathParameters, n))
    ensures var base, path := res.baseUri.GetOr(""), res.path;
      res.ToString().Failure? ==>
        if exists n :: n in Placeholders(base) && !Defined(res.baseUriParameters, n)
        then FirstUndefined(Placeholders(base), res.baseUriParameters, res.ToString().error.name)
        else FirstUndefined(Placeholders(path), res.pathParameters, res.ToString().error.name)
  {
  }

  lemma RenderedAs(res: Resource, base: string, path: string)
    requires Substitute(res.baseUri.GetOr(""), res.baseUriParameters) == Success(base)
    requires Substitute(res.path, res.pathParameters) == Success(path)
    ensures res.ToString() == Success(base + path + QueryPart(res.queryParameters))
  {
  }

  /** `new Resource(baseUri, baseUriParameters = {}, path = "", pathParameters = {}, queryParameters = {})` */
  function NewResource(
    baseUri: Option<string>,
    baseUriParameters: Option<Record<Option<string>>>,
    path: Option<string>,
    pathParameters: Option<Record<Option<string>>>,
    queryParameters: Option<Record<QueryValue>>): (r: Resource)
    ensures r.baseUri == baseUri
    ensures baseUriParameters.None? ==> r.baseUriParameters == Empty()
    ensures baseUriParameters.Some? ==> r.baseUriParameters == baseUriParameters.value
    ensures path.None? ==> r.path == ""
    ensures path.Some? ==> r.path == path.value
    ensures pathParameters.None? ==> r.pathParameters == Empty()
    ensures pathParameters.Some? ==> r.pathParameters == pathParameters.value
    ensures queryParameters.None? ==> r.queryParameters == Empty()
    ensures queryParameters.Some? ==> r.queryParameters == queryParameters.value
  {
    Resource(baseUri, baseUriParameters.GetOr(Empty()), path.GetOr(""),
      pathParameters.GetOr(Empty()), queryParameters.GetOr(Empty()))
  }

  /** With no placeholders and nothing in the query, the URL is the base URI followed by the path. */
  lemma RenderPlain(res: Resource)
    requires Placeholders(res.baseUri.GetOr("")) == [] && Placeholders(res.path) == []
    requires QueryPairs(res.queryParameters) == [] && !Truthy(Refine(res.queryParameters))
    ensures res.ToString() == Success(res.baseUri.GetOr("") + res.path)
  {
    SubstituteUnchanged(res.baseUri.GetOr(""), res.baseUriParameters);
    SubstituteUnchanged(res.path, res.pathParameters);
    RenderedAs(res, res.baseUri.GetOr(""), res.path);
    QueryStringEmpty(res.queryParameters);
    assert QueryPart(res.queryParameters) == "";
    assert res.baseUri.GetOr("") + res.path + "" == res.baseUri.GetOr("") + res.path;
  }

  /**
   * A rendered URL is the filled base URI and path, then, exactly when
   * some query pair is written or `refine` is truthy, `?` and a query
   * string that reads back as the query pairs.
   */
  lemma RenderedQuery(res: Resource)
    requires res.ToString().Success?
    ensures var url := res.ToString().value;
      var q := res.queryParameters;
      var prefix := Substitute(res.baseUri.GetOr(""), res.baseUriParameters).value +
        Substitute(res.path, res.pathParameters).value;
      |url| >= |prefix| && url[..|prefix|] == prefix &&
      (|url| == |prefix| <==> QueryPairs(q) == [] && !Truthy(Refine(q))) &&
      (|url| > |prefix| ==> url[|prefix|] == '?' && ParseQuery(url[|prefix| + 1..]) == DecodedText(QueryPairs(q)))
  {
    var q := res.queryParameters;
    var base := Substitute(res.baseUri.GetOr(""), res.baseUriParameters).value;
    var path := Substitute(res.path, res.pathParameters).value;
    RenderedAs(res, base, path);
    QueryPartShape(q);
    var prefix, part := base + path, QueryPart(q);
    assert (prefix + part)[..|prefix|] == prefix;
    assert |part| > 0 ==> (prefix + part)[|prefix|] == part[0] && (prefix + part)[|prefix| + 1..] == part[1..];
  }

  lemma QueryPartShape(q: Record<QueryValue>)
    ensures QueryPart(q) == "" <==> QueryPairs(q) == [] && !Truthy(Refine(q))
    ensures QueryPart(q) != "" ==> QueryPart(q)[0] == '?' && ParseQuery(QueryPart(q)[1..]) == DecodedText(QueryPairs(q))
  {
    QueryStringEmpty(q);
    QueryStringRoundTrip(q);
    if QueryString(q) != "" {
      assert QueryPart(q)[1..] == QueryString(q);
    }
  }

  /**
   * The base URI is filled only from the base-URI parameters and the path
   * only from the path parameters, so one name can take a different value
   * in each.
   */
  lemma RenderSeparateParameters(
    basePrefix: string, baseSuffix: string, pathPrefix: string, pathSuffix: string,
    name: string, baseValue: string, pathValue: string)
    requires '{' !in basePrefix + baseSuffix + pathPrefix + pathSuffix
    requires name != "" && '}' !in name
    ensures NewResource(
        Some(basePrefix + "{" + name + "}" + baseSuffix), Some(FromPairs([(name, Some(baseValue))])),
        Some(pathPrefix + "{" + name + "}" + pathSuffix), Some(FromPairs([(name, Some(pathValue))])),
        None).ToString()
      == Success(basePrefix + baseValue + baseSuffix + pathPrefix + pathValue + pathSuffix)
  {
    var baseParameters: Record<Option<string>> := FromPairs([(name, Some(baseValue))]);
    var pathParameters: Record<Option<string>> := FromPairs([(name, Some(pathValue))]);
    var res := NewResource(
      Some(basePrefix + "{" + name + "}" + baseSuffix), Some(baseParameters),
      Some(pathPrefix + "{" + name + "}" + pathSuffix), Some(pathParameters), None);
    var base, path := basePrefix + baseValue + baseSuffix, pathPrefix + pathValue + pathSuffix;
    NotInParts(basePrefix, baseSuffix, pathPrefix, pathSuffix);
    assert Substitute(res.baseUri.GetOr(""), res.baseUriParameters) == Success(base) by {
      FilledOnce(basePrefix, name, baseSuffix, baseValue, baseParameters);
    }
    assert Substitute(res.path, res.pathParameters) == Success(path) by {
      FilledOnce(pathPrefix, name, pathSuffix, pathValue, pathParameters);
    }
    RenderedAs(res, base, path);
    QueryPartOfEmpty();
    ConcatSix(basePrefix, baseValue, baseSuffix, pathPrefix, pathValue, pathSuffix);
  }

  /** No query parameters, no `?`. */
  lemma QueryPartOfEmpty()
    ensures QueryPart(Empty()) == ""
  {
    var e: Record<QueryValue> := Empty();
    QueryPartShape(e);
    assert QueryPairs(e) == [];
  }

  lemma ConcatSix(a: string, b: string, c: string, d: string, e: string, f: string)
    ensures (a + b + c) + (d + e + f) + "" == a + b + c + d + e + f
  {
  }

  lemma NotInParts(a: string, b: string, c: string, d: string)
    requires '{' !in a + b + c + d
    ensures '{' !in a && '{' !in b && '{' !in c && '{' !in d
  {
    assert forall x :: x in a || x in b || x in c || x in d ==> x in a + b + c + d;
  }

  lemma FilledOnce(prefix: string, name: string, suffix: string, value: string, parameters: Record<Option<string>>)
    requires '{' !in prefix && '{' !in suffix && name != "" && '}' !in name
    requires parameters == FromPairs([(name, Some(value))])
    ensures Substitute(prefix + "{" + name + "}" + suffix, parameters) == Success(prefix + value + suffix)
  {
    var pairs := [(name, Some(value))];
    assert pairs[..0] == [];
    var e: Record<Option<string>> := Empty();
    assert parameters == Put(e, name, Some(value));
    assert parameters.values[name] == Some(value);
    SubstitutePlaceholder(prefix, name, suffix, parameters);
    SubstituteLiteral(suffix, parameters);
  }

  /** A truthy `refine` alone gives a URL with `?&`. */
  lemma RenderRefineAlone(base: string, path: string, v: QueryValue)
    requires '{' !in base && '{' !in path
    requires Truthy(v)
    ensures NewResource(Some(base), None, Some(path), None, Some(One("refine", v))).ToString()
      == Success(base + path + "?&" + Join(RenderPairs(ValuePairs("refine", v, Repeat)), "&"))
  {
    var e: Record<Option<string>> := Empty();
    var res := NewResource(Some(base), None, Some(path), None, Some(One("refine", v)));
    SubstituteLiteral(base, e);
    SubstituteLiteral(path, e);
    RenderedAs(res, base, path);
    QueryRefineAlone(v);
    var j := Join(RenderPairs(ValuePairs("refine", v, Repeat)), "&");
    assert QueryPart(One("refine", v)) == "?" + ("&" + j);
    QuestionAmpersand(base + path, j);
  }

  lemma QuestionAmpersand(prefix: string, j: string)
    ensures prefix + ("?" + ("&" + j)) == prefix + "?&" + j
  {
  }
}
