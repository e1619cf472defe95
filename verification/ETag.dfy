/** Entity tags: how one is joined from its parts, and when a replayed one matches. */
module ETag {
  import opened Basics

  // ---------------------------------------------------------------- decimal numbers

  function Digit(d: nat): char
    requires d < 10
  {
    (0x30 + d) as char
  }

  predicate IsDigit(c: char) { 0x30 <= c as int <= 0x39 }

  function Digits(n: nat): (r: string)
    ensures r != "" && forall c :: c in r ==> IsDigit(c)
  {
    if n < 10 then [Digit(n)] else Digits(n / 10) + [Digit(n % 10)]
  }

  function Itoa(n: int): string
  {
    if n < 0 then "-" + Digits(-n) else Digits(n)
  }

  function Value(s: string): nat
    requires forall c :: c in s ==> IsDigit(c)
  {
    if s == "" then 0
    else
      var last := s[|s| - 1];
      assert last in s && IsDigit(last);
      Value(s[..|s| - 1]) * 10 + (last as int - 0x30)
  }

  lemma {:induction false} DigitsRoundTrip(n: nat)
    ensures Value(Digits(n)) == n
  {
    if n >= 10 {
      DigitsRoundTrip(n / 10);
      var s := Digits(n);
      assert s[..|s| - 1] == Digits(n / 10);
    } else {
      assert Digits(n)[..0] == "";
    }
  }

  lemma ItoaInjective(m: int, n: int)
    requires Itoa(m) == Itoa(n)
    ensures m == n
  {
    assert Itoa(m)[0] in Itoa(m) && Itoa(n)[0] in Itoa(n);
    assert !IsDigit('-');
    var a, b := if m < 0 then -m else m, if n < 0 then -n else n;
    assert m < 0 ==> Itoa(m)[1..] == Digits(a);
    assert n < 0 ==> Itoa(n)[1..] == Digits(b);
    DigitsRoundTrip(a);
    DigitsRoundTrip(b);
  }

  // ---------------------------------------------------------------- joining and splitting

  function Join(parts: seq<string>, sep: char): string
  {
    if |parts| == 0 then "" else if |parts| == 1 then parts[0] else parts[0] + [sep] + Join(parts[1..], sep)
  }

  /** Always at least one piece, as in the standard library. */
  function Split(s: string, sep: char): (r: seq<string>)
    ensures |r| >= 1
  {
    if s == "" then [""]
    else
      var rest := Split(s[1..], sep);
      if s[0] == sep then [""] + rest else [[s[0]] + rest[0]] + rest[1..]
  }

  lemma {:induction false} SplitPiece(p: string, sep: char)
    requires sep !in p
    ensures Split(p, sep) == [p]
  {
    if p != "" {
      SplitPiece(p[1..], sep);
      assert p[0] in p && [p[0]] + p[1..] == p;
    }
  }

  lemma {:induction false} SplitCons(p: string, s: string, sep: char)
    requires sep !in p
    ensures Split(p + [sep] + s, sep) == [p] + Split(s, sep)
  {
    var whole := p + [sep] + s;
    if p == "" {
      assert whole[1..] == s;
    } else {
      SplitCons(p[1..], s, sep);
      assert whole[1..] == p[1..] + [sep] + s;
      assert p[0] in p && [p[0]] + p[1..] == p && whole[0] == p[0];
    }
  }

  predicate Clean(parts: seq<string>, sep: char)
  {
    parts != [] && forall p :: p in parts ==> sep !in p
  }

  lemma {:induction false} SplitJoin(parts: seq<string>, sep: char)
    requires Clean(parts, sep)
    ensures Split(Join(parts, sep), sep) == parts
  {
    if |parts| == 1 {
      SplitPiece(parts[0], sep);
    } else {
      SplitJoin(parts[1..], sep);
      SplitCons(parts[0], Join(parts[1..], sep), sep);
    }
  }

  lemma {:induction false} JoinAvoids(parts: seq<string>, sep: char, c: char)
    requires c != sep && forall p :: p in parts ==> c !in p
    ensures c !in Join(parts, sep)
  {
    if |parts| > 1 {
      JoinAvoids(parts[1..], sep, c);
    }
  }

  // ---------------------------------------------------------------- entity tags

  function BuildETag(parts: seq<string>): string
  {
    "\"" + Join(parts, ':') + "\""
  }

  /** Parts without colons can be read back from the tag, so different parts give different tags. */
  lemma BuildETagInjective(a: seq<string>, b: seq<string>)
    requires Clean(a, ':') && Clean(b, ':') && BuildETag(a) == BuildETag(b)
    ensures a == b
  {
    assert BuildETag(a)[1..|BuildETag(a)| - 1] == Join(a, ':');
    assert BuildETag(b)[1..|BuildETag(b)| - 1] == Join(b, ':');
    SplitJoin(a, ':');
    SplitJoin(b, ':');
  }

  predicate IsSpace(c: char)
  {
    c in {' ', '\t', '\n', '\r', '\U{0B}', '\U{0C}', '\U{85}', '\U{A0}'}
  }

  function TrimLeft(s: string): string
  {
    if s != "" && IsSpace(s[0]) then TrimLeft(s[1..]) else s
  }

  function TrimRight(s: string): string
  {
    if s != "" && IsSpace(s[|s| - 1]) then TrimRight(s[..|s| - 1]) else s
  }

  function TrimSpace(s: string): string { TrimRight(TrimLeft(s)) }

  function TrimPrefix(s: string, prefix: string): string
  {
    if prefix <= s then s[|prefix|..] else s
  }

  predicate ValidatorMatches(raw: string, current: string)
  {
    TrimSpace(raw) == "*" || TrimPrefix(TrimSpace(raw), "W/") == TrimPrefix(current, "W/")
  }

  /** Some validator on some header line is the wildcard or equals the tag, weakness ignored. */
  ghost predicate Matches(lines: seq<string>, current: string)
  {
    exists line, raw :: line in lines && raw in Split(line, ',') && ValidatorMatches(raw, current)
  }

  method MatchesIfNoneMatch(headerValues: seq<string>, current: string) returns (r: bool)
    ensures r <==> Matches(headerValues, current)
  {
    var want := TrimPrefix(current, "W/");
    for i := 0 to |headerValues|
      invariant forall k, raw :: 0 <= k < i && raw in Split(headerValues[k], ',') ==> !ValidatorMatches(raw, current)
    {
      var raws := Split(headerValues[i], ',');
      for j := 0 to |raws|
        invariant forall k :: 0 <= k < j ==> !ValidatorMatches(raws[k], current)
      {
        var v := TrimSpace(raws[j]);
        if v == "*" || TrimPrefix(v, "W/") == want {
          assert headerValues[i] in headerValues && raws[j] in raws && ValidatorMatches(raws[j], current);
          return true;
        }
      }
    }
    return false;
  }

  /** A client that sends back one tag it was given matches exactly when the current tag is that tag. */
  lemma ReplayMatchesIffEqual(sent: seq<string>, current: seq<string>)
    requires forall p :: p in sent ==> ',' !in p
    ensures Matches([BuildETag(sent)], BuildETag(current)) <==> BuildETag(sent) == BuildETag(current)
  {
    var tag := BuildETag(sent);
    JoinAvoids(sent, ':', ',');
    SplitPiece(tag, ',');
    assert TrimSpace(tag) == tag;
    assert tag[0] == '"' && BuildETag(current)[0] == '"';
    assert !("W/" <= tag) && !("W/" <= BuildETag(current));
    assert tag != "*";
    if tag == BuildETag(current) {
      assert tag in [tag] && tag in Split(tag, ',') && ValidatorMatches(tag, BuildETag(current));
    }
  }

  // ---------------------------------------------------------------- what a client may send

  /** One list member: the wildcard or a tag, strong or weak, with optional white space around it. */
  datatype Member = Member(before: string, weak: bool, parts: Option<seq<string>>, after: string)

  predicate Blank(s: string)
  {
    forall c :: c in s ==> c == ' ' || c == '\t'
  }

  ghost predicate Sendable(v: Member)
  {
    Blank(v.before) && Blank(v.after) && (v.parts.Some? ==> forall p :: p in v.parts.value ==> ',' !in p)
  }

  function Written(v: Member): string
  {
    if v.parts.None? then "*" else (if v.weak then "W/" else "") + BuildETag(v.parts.value)
  }

  function Text(v: Member): string
  {
    v.before + Written(v) + v.after
  }

  function Texts(vs: seq<Member>): (r: seq<string>)
    ensures |r| == |vs| && forall i :: 0 <= i < |r| ==> r[i] == Text(vs[i])
  {
    seq(|vs|, i requires 0 <= i < |vs| => Text(vs[i]))
  }

  function Lines(vs: seq<seq<Member>>): (r: seq<string>)
    ensures |r| == |vs| && forall i :: 0 <= i < |r| ==> r[i] == Join(Texts(vs[i]), ',')
  {
    seq(|vs|, i requires 0 <= i < |vs| => Join(Texts(vs[i]), ','))
  }

  lemma {:induction false} TrimLeftPad(pad: string, s: string)
    requires Blank(pad) && s != "" && !IsSpace(s[0])
    ensures TrimLeft(pad + s) == s
  {
    if pad == "" {
      assert pad + s == s;
    } else {
      var rest := pad[1..];
      assert pad == [pad[0]] + rest && (pad + s)[1..] == rest + s;
      assert pad[0] in pad && forall c :: c in rest ==> c in pad;
      TrimLeftPad(rest, s);
    }
  }

  lemma {:induction false} TrimRightPad(s: string, pad: string)
    requires Blank(pad) && s != "" && !IsSpace(s[|s| - 1])
    ensures TrimRight(s + pad) == s
    decreases |pad|
  {
    if pad == "" {
      assert s + pad == s;
    } else {
      var n := |pad| - 1;
      var init := pad[..n];
      assert pad == init + [pad[n]] && (s + pad)[..|s| + n] == s + init;
      assert pad[n] in pad && forall c :: c in init ==> c in pad;
      TrimRightPad(s, init);
    }
  }

  /** The wildcard, or the tag itself. */
  predicate Accepts(v: Member, current: seq<string>)
  {
    v.parts.None? || BuildETag(v.parts.value) == BuildETag(current)
  }

  lemma MemberMatches(v: Member, current: seq<string>)
    requires Sendable(v)
    ensures ValidatorMatches(Text(v), BuildETag(current)) <==> Accepts(v, current)
  {
    var w, tag := Written(v), BuildETag(current);
    assert Text(v) == v.before + (w + v.after) && (w + v.after)[0] == w[0];
    TrimLeftPad(v.before, w + v.after);
    TrimRightPad(w, v.after);
    assert tag[0] == '"' && !("W/" <= tag);
    assert v.parts.None? ==> TrimSpace(Text(v)) == "*";
  }

  lemma NoComma(v: Member)
    requires Sendable(v)
    ensures ',' !in Text(v)
  {
    if v.parts.Some? {
      JoinAvoids(v.parts.value, ':', ',');
    }
  }

  ghost predicate LineMatches(line: string, current: string)
  {
    exists raw :: raw in Split(line, ',') && ValidatorMatches(raw, current)
  }

  lemma LineMatchesIff(vs: seq<Member>, current: seq<string>)
    requires vs != [] && forall v :: v in vs ==> Sendable(v)
    ensures LineMatches(Join(Texts(vs), ','), BuildETag(current)) <==> exists v :: v in vs && Accepts(v, current)
  {
    var texts, tag := Texts(vs), BuildETag(current);
    forall v | v in vs { NoComma(v); }
    SplitJoin(texts, ',');
    forall i | 0 <= i < |vs|
      ensures ValidatorMatches(texts[i], tag) <==> Accepts(vs[i], current)
    {
      MemberMatches(vs[i], current);
    }
    if v :| v in vs && Accepts(v, current) {
      var i :| 0 <= i < |vs| && vs[i] == v;
      assert texts[i] in texts;
    }
  }

  /** Whatever list a client sends, on however many lines, it matches exactly when some member is the
      wildcard or the current tag, marked weak or not. */
  lemma ListMatchesIff(vs: seq<seq<Member>>, current: seq<string>)
    requires forall line :: line in vs ==> line != [] && forall v :: v in line ==> Sendable(v)
    ensures Matches(Lines(vs), BuildETag(current)) <==> exists line, v :: line in vs && v in line && Accepts(v, current)
  {
    var lines, tag := Lines(vs), BuildETag(current);
    forall i | 0 <= i < |vs|
      ensures lines[i] in lines && (LineMatches(lines[i], tag) <==> exists v :: v in vs[i] && Accepts(v, current))
    {
      assert vs[i] in vs;
      LineMatchesIff(vs[i], current);
    }
    assert Matches(lines, tag) <==> exists line :: line in lines && LineMatches(line, tag);
  }
}
