/**
 JSON Pointer: parsing and printing (section 3 of RFC 6901), array indices
 (section 4) and the checked look-ups `get_checked` and `contains`.
 */
module JsonPointer {
  import opened JsonValue
  import opened StringEscape
  import opened Digits
  import opened Words

  /** The reference tokens of a pointer. */
  type Path = seq<string>

  // ----- printing and parsing -----------------------------------------------

  /** `to_string`: the left fold that appends "/" and the escaped token. */
  function ToText(tokens: seq<string>): string {
    if tokens == [] then ""
    else ToText(tokens[..|tokens| - 1]) + "/" + Escaped(tokens[|tokens| - 1])
  }

  lemma ToTextAppend(tokens: seq<string>, t: string)
    ensures ToText(tokens + [t]) == ToText(tokens) + "/" + Escaped(t)
  {
    assert (tokens + [t])[..|tokens|] == tokens;
  }

  lemma ToTextOfNone()
    ensures ToText([]) == ""
  {
  }

  lemma Grouped(x: string, y: string, z: string)
    ensures x + y + z == x + (y + z)
  {
  }

  lemma {:induction false} ToTextConcat(a: seq<string>, b: seq<string>)
    ensures ToText(a + b) == ToText(a) + ToText(b)
    decreases |b|
  {
    hide Escaped, ToText;
    if b == [] {
      assert a + b == a;
      ToTextOfNone();
    } else {
      var b', t := b[..|b| - 1], b[|b| - 1];
      assert a + b == a + b' + [t] && b == b' + [t];
      ToTextConcat(a, b');
      ToTextAppend(a + b', t);
      ToTextAppend(b', t);
      Grouped(ToText(a), ToText(b'), "/" + Escaped(t));
    }
  }

  /** The position of the first "/" of `s`, or its length. */
  function Slash(s: string): (n: nat)
    ensures n <= |s| && forall p | 0 <= p < n :: s[p] != '/'
    ensures n < |s| ==> s[n] == '/'
  {
    if s == "" || s[0] == '/' then 0 else 1 + Slash(s[1..])
  }

  /** The tokens of the text behind a leading "/". */
  function Tokens(s: string): Result<seq<string>>
    decreases |s|
  {
    var n := Slash(s);
    if !WellEscaped(s[..n]) then Throws(ParseError(108))
    else if n == |s| then Ok([Unescaped(s)])
    else
      var rest :- Tokens(s[n + 1..]);
      Ok([Unescaped(s[..n])] + rest)
  }

  /** What a reference string means. */
  function Parsed(s: string): Result<seq<string>> {
    if s == "" then Ok([])
    else if s[0] != '/' then Throws(ParseError(107))
    else Tokens(s[1..])
  }

  function Prepend(done: seq<string>, r: Result<seq<string>>): Result<seq<string>> {
    match r
    case Ok(ts) => Ok(done + ts)
    case Throws(e) => Throws(e)
  }

  /** The "~" check inside `split`. */
  method CheckEscapes(token: string) returns (ok: bool)
    ensures ok == WellEscaped(token)
  {
    hide Find, OccursAt;
    var pos := Find(token, "~", 0);
    ghost var from := 0;
    while pos != -1
      invariant 0 <= from <= |token| && pos == Find(token, "~", from)
      invariant forall p :: 0 <= p < from && token[p] == '~' ==>
                  p + 1 < |token| && (token[p + 1] == '0' || token[p + 1] == '1')
      decreases |token| - from
    {
      OccursWithin(token, "~", pos);
      NoTildeBetween(token, from, pos);
      if pos == |token| - 1 || (token[pos + 1] != '0' && token[pos + 1] != '1') {
        return false;
      }
      from := pos + 1;
      pos := Find(token, "~", pos + 1);
    }
    NoTildeBetween(token, from, |token|);
    return true;
  }

  lemma NoTildeBetween(s: string, from: nat, to: nat)
    requires from <= to <= |s|
    requires forall p :: from <= p < to ==> !OccursAt(s, "~", p)
    ensures forall p :: from <= p < to ==> s[p] != '~'
    ensures to < |s| && OccursAt(s, "~", to) ==> s[to] == '~'
  {
    forall p | from <= p < to ensures s[p] != '~' {
      assert !OccursAt(s, "~", p);
      assert s[p..p + 1] == [s[p]];
    }
    if to < |s| { assert s[to..to + 1] == [s[to]]; }
  }

  lemma SlashIsFind(s: string, start: nat)
    requires start <= |s|
    ensures var pos := Find(s, "/", start);
            Slash(s[start..]) == if pos == -1 then |s| - start else pos - start
  {
    hide Find, Slash, OccursAt;
    var rest := s[start..];
    var pos, n := Find(s, "/", start), Slash(rest);
    if start + n < |s| {
      assert rest[n] == s[start + n];
      SlashOccurs(s, start + n);
    }
    if pos != -1 {
      SlashOccurs(s, pos);
      assert rest[pos - start] == s[pos];
    }
  }

  lemma SlashOccurs(s: string, p: nat)
    ensures OccursAt(s, "/", p) <==> p < |s| && s[p] == '/'
  {
    if p < |s| { assert s[p..p + 1] == [s[p]]; }
  }

  /** What is left to parse once the piece at `start` has been dealt with. */
  lemma {:induction false} SplitStep(s: string, start: nat, slash: int, result: seq<string>)
    requires start <= |s| && slash == Find(s, "/", start)
    ensures var token := if slash == -1 then s[start..] else s[start..slash];
            Prepend(result, Tokens(s[start..])) ==
              if !WellEscaped(token) then Throws(ParseError(108))
              else if slash == -1 then Ok(result + [Unescaped(token)])
              else Prepend(result + [Unescaped(token)], Tokens(s[slash + 1..]))
  {
    hide WellEscaped, Unescaped, Find, Slash;
    var token, rest := if slash == -1 then s[start..] else s[start..slash], s[start..];
    SlashIsFind(s, start);
    assert token == rest[..Slash(rest)];
    if slash == -1 {
      assert token == rest;
    } else {
      assert s[slash + 1..] == rest[Slash(rest) + 1..];
      PrependTwice(result, Unescaped(token), Tokens(s[slash + 1..]));
    }
  }

  lemma PrependTwice(done: seq<string>, t: string, r: Result<seq<string>>)
    ensures Prepend(done, Prepend([t], r)) == Prepend(done + [t], r)
  {
    if r.Ok? { assert done + ([t] + r.value) == done + [t] + r.value; }
  }

  /** `split`: scan for slashes, check and unescape each piece. */
  method Split(s: string) returns (r: Result<seq<string>>)
    ensures r == Parsed(s)
  {
    if s == "" {
      return Ok([]);
    }
    if s[0] != '/' {
      return Throws(ParseError(107));
    }
    var result: seq<string> := [];
    var slash := Find(s, "/", 1);
    var start := 1;
    assert Prepend(result, Parsed(s)) == Parsed(s) by {
      if Parsed(s).Ok? { assert [] + Parsed(s).value == Parsed(s).value; }
    }
    while start != 0
      invariant 0 <= start <= |s|
      invariant start != 0 ==> slash == Find(s, "/", start)
      invariant Parsed(s) == if start == 0 then Ok(result) else Prepend(result, Tokens(s[start..]))
      decreases if start == 0 then 0 else |s| + 1 - start
    {
      var token := if slash == -1 then s[start..] else s[start..slash];
      SplitStep(s, start, slash, result);
      var ok := CheckEscapes(token);
      if !ok {
        return Throws(ParseError(108));
      }
      var t := Unescape(token);
      result := result + [t];
      start := if slash == -1 then 0 else slash + 1;
      slash := Find(s, "/", start);
    }
    return Ok(result);
  }

  /** `to_string` as the fold the library runs. */
  method ToString(tokens: seq<string>) returns (s: string)
    ensures s == ToText(tokens)
  {
    s := "";
    for i := 0 to |tokens|
      invariant s == ToText(tokens[..i])
    {
      var e := Escape(tokens[i]);
      ToTextAppend(tokens[..i], tokens[i]);
      assert tokens[..i + 1] == tokens[..i] + [tokens[i]];
      s := s + "/" + e;
    }
    assert tokens[..|tokens|] == tokens;
  }

  /** The tokens of a text whose first piece ends at a slash. */
  lemma TokensStep(e: string, rest: string)
    requires '/' !in e && WellEscaped(e)
    ensures Tokens(e + "/" + rest) == Prepend([Unescaped(e)], Tokens(rest))
  {
    var s := e + "/" + rest;
    var n := Slash(s);
    assert s[|e|] == '/';
    assert n == |e| by {
      assert forall p | 0 <= p < |e| :: s[p] == e[p];
    }
    assert s[..n] == e && s[n + 1..] == rest;
  }

  /** The tokens of a text without a slash. */
  lemma TokensLast(e: string)
    requires '/' !in e && WellEscaped(e)
    ensures Tokens(e) == Ok([Unescaped(e)])
  {
    assert Slash(e) == |e|;
    assert e[..|e|] == e;
  }

  /** Parsing a printed pointer gives its tokens back, for every list of tokens. */
  lemma {:induction false} ParsePrint(tokens: seq<string>)
    ensures Parsed(ToText(tokens)) == Ok(tokens)
  {
    hide ToText, Tokens, Escaped;
    if tokens == [] {
      ToTextOfNone();
    } else {
      var s := ToText(tokens);
      TextHead(tokens);
      assert s[1..] == Escaped(tokens[0]) + ToText(tokens[1..]);
      TokensPrint(tokens);
    }
  }

  lemma TextHead(tokens: seq<string>)
    requires tokens != []
    ensures ToText(tokens) == "/" + Escaped(tokens[0]) + ToText(tokens[1..])
  {
    assert tokens == [tokens[0]] + tokens[1..];
    ToTextConcat([tokens[0]], tokens[1..]);
    assert ToText([tokens[0]]) == "/" + Escaped(tokens[0]) by {
      assert [] + [tokens[0]] == [tokens[0]];
      ToTextAppend([], tokens[0]);
    }
  }

  lemma {:induction false} TokensPrint(tokens: seq<string>)
    requires tokens != []
    ensures Tokens(Escaped(tokens[0]) + ToText(tokens[1..])) == Ok(tokens)
    decreases |tokens|
  {
    hide Tokens, Escaped, Unescaped, ToText;
    var e, more := Escaped(tokens[0]), tokens[1..];
    UnescapeEscape(tokens[0]);
    assert tokens == [tokens[0]] + more;
    if more == [] {
      ToTextOfNone();
      assert e + ToText(more) == e;
      TokensLast(e);
      assert tokens == [tokens[0]];
    } else {
      TextHead(more);
      var rest := Escaped(more[0]) + ToText(more[1..]);
      assert e + ToText(more) == e + "/" + rest;
      TokensPrint(more);
      TokensStep(e, rest);
    }
  }

  /** Printing the tokens of an accepted text gives the text back. */
  lemma {:induction false} PrintParse(s: string)
    requires Parsed(s).Ok?
    ensures ToText(Parsed(s).value) == s
  {
    if s != "" {
      PrintTokens(s[1..]);
      assert s == "/" + s[1..];
    }
  }

  lemma {:induction false} PrintTokens(s: string)
    requires Tokens(s).Ok?
    ensures Tokens(s).value != [] && ToText(Tokens(s).value) == "/" + s
    decreases |s|
  {
    var n, ts := Slash(s), Tokens(s).value;
    var head := s[..n];
    EscapeUnescape(head);
    TextHead(ts);
    if n == |s| {
      assert head == s && ts == [Unescaped(head)];
      assert ToText(ts[1..]) == "";
    } else {
      var rest := s[n + 1..];
      PrintTokens(rest);
      assert ts[1..] == Tokens(rest).value;
      PiecesJoin(s, n);
    }
  }

  lemma PiecesJoin(s: string, n: nat)
    requires n < |s| && s[n] == '/'
    ensures "/" + s[..n] + ("/" + s[n + 1..]) == "/" + s
  {
  }

  /** Exactly the texts that `split` accepts. */
  lemma ParsedAccepts(s: string)
    ensures Parsed(s).Ok? <==> s == "" || (s[0] == '/' && WellEscaped(s))
    ensures Parsed(s).Throws? ==> Parsed(s).error == ParseError(if s[0] == '/' then 108 else 107)
  {
    if s != "" && s[0] == '/' {
      TokensAccepts(s[1..]);
      if WellEscaped(s) { WellEscapedTail(s, 1); }
      if WellEscaped(s[1..]) {
        forall p | 0 <= p < |s| && s[p] == '~' ensures p + 1 < |s| && (s[p + 1] == '0' || s[p + 1] == '1') {
          assert s[1..][p - 1] == '~';
        }
      }
    }
  }

  lemma {:induction false} TokensAccepts(s: string)
    ensures Tokens(s).Ok? <==> WellEscaped(s)
    ensures Tokens(s).Throws? ==> Tokens(s).error == ParseError(108)
    decreases |s|
  {
    hide Unescaped, Slash, WellEscaped;
    var n := Slash(s);
    if n == |s| {
      assert s[..n] == s;
    } else {
      TokensAccepts(s[n + 1..]);
      WellEscapedParts(s, n);
    }
  }

  /** A text with a "/" is well escaped exactly if both parts are. */
  lemma WellEscapedParts(s: string, n: nat)
    requires n < |s| && s[n] == '/'
    ensures WellEscaped(s) <==> WellEscaped(s[..n]) && WellEscaped(s[n + 1..])
  {
    var head, rest := s[..n], s[n + 1..];
    if WellEscaped(s) {
      WellEscapedTail(s, n + 1);
      forall p | 0 <= p < n && head[p] == '~' ensures p + 1 < n && (head[p + 1] == '0' || head[p + 1] == '1') {
        assert s[p] == '~';
      }
    }
    if WellEscaped(head) && WellEscaped(rest) {
      forall p | 0 <= p < |s| && s[p] == '~' ensures p + 1 < |s| && (s[p + 1] == '0' || s[p + 1] == '1') {
        if p < n { assert head[p] == '~'; } else { assert rest[p - n - 1] == '~'; }
      }
    }
  }

  // ----- array indices ------------------------------------------------------

  /** The number of leading digits: how far `strtoull` reads. */
  function DigitRun(s: string): (n: nat)
    ensures n <= |s| && AllDigits(s[..n])
    ensures n < |s| ==> !IsDigit(s[n])
  {
    if s == "" || !IsDigit(s[0]) then 0 else
      assert s[..1 + DigitRun(s[1..])] == [s[0]] + s[1..][..DigitRun(s[1..])];
      1 + DigitRun(s[1..])
  }

  /** `array_index`; `strtoull` never skips blanks or a sign here, because longer
      tokens must begin with a digit and a single blank or sign converts nothing. */
  function ArrayIndex(s: string): Result<nat> {
    if |s| > 1 && s[0] == '0' then Throws(ParseError(106))
    else if |s| > 1 && !('1' <= s[0] <= '9') then Throws(ParseError(109))
    else if DigitRun(s) == 0 || DigitRun(s) != |s| then Throws(OutOfRange(404))
    else
      var value := Number(s[..DigitRun(s)]);
      if value >= TWO_64 then Throws(OutOfRange(404))
      else if value >= TWO_64 - 1 then Throws(OutOfRange(410))
      else Ok(value)
  }

  /** `std::to_string` of an index. */
  function IndexText(n: nat): (s: string)
    ensures s != "" && AllDigits(s)
  {
    var d := [('0' as int + n % 10) as char];
    if n < 10 then d else IndexText(n / 10) + d
  }

  lemma {:induction false} IndexTextNumber(n: nat)
    ensures Number(IndexText(n)) == n
    ensures |IndexText(n)| > 1 ==> IndexText(n)[0] != '0'
    ensures n > 0 ==> IndexText(n)[0] != '0'
  {
    var s := IndexText(n);
    if n < 10 {
      assert s[..0] == "";
    } else {
      IndexTextNumber(n / 10);
      assert s[..|s| - 1] == IndexText(n / 10);
    }
  }

  lemma AllDigitsRun(s: string)
    requires AllDigits(s)
    ensures DigitRun(s) == |s| && s[..|s|] == s
  {
  }

  /** The token of every index below the largest `size_type` is read as that index. */
  lemma ArrayIndexOfText(n: nat)
    requires n < TWO_64 - 1
    ensures ArrayIndex(IndexText(n)) == Ok(n)
  {
    IndexTextNumber(n);
    AllDigitsRun(IndexText(n));
  }

  /** Only the canonical text of an index is read as that index. */
  lemma ArrayIndexIsCanonical(s: string)
    requires ArrayIndex(s).Ok?
    ensures s == IndexText(ArrayIndex(s).value)
  {
    AllDigitsRun(s);
    CanonicalText(s);
  }

  lemma {:induction false} CanonicalText(s: string)
    requires s != "" && AllDigits(s) && (|s| > 1 ==> s[0] != '0')
    ensures IndexText(Number(s)) == s
    ensures s[0] != '0' ==> Number(s) > 0
  {
    hide IndexText, Number;
    var front, c := s[..|s| - 1], s[|s| - 1];
    assert s == front + [c] && IsDigit(c);
    LastDigit(front, c);
    IndexTextLast(Number(front), c);
    if front == "" {
      NumberOfNone();
    } else {
      CanonicalText(front);
    }
  }

  lemma NumberOfNone()
    ensures Number("") == 0
  {
  }

  lemma LastDigit(front: string, c: char)
    requires AllDigits(front) && IsDigit(c)
    ensures AllDigits(front + [c]) && Number(front + [c]) == 10 * Number(front) + (c as int - '0' as int)
  {
    var s := front + [c];
    assert s[..|s| - 1] == front;
  }

  lemma IndexTextLast(n: nat, c: char)
    requires IsDigit(c)
    ensures IndexText(10 * n + (c as int - '0' as int)) == if n == 0 then [c] else IndexText(n) + [c]
  {
    var m := 10 * n + (c as int - '0' as int);
    assert m % 10 == c as int - '0' as int && m / 10 == n;
  }

  /** Exactly when a token is a usable array index. */
  lemma ArrayIndexAccepts(s: string)
    ensures ArrayIndex(s).Ok? <==> exists n: nat :: n < TWO_64 - 1 && s == IndexText(n)
  {
    if ArrayIndex(s).Ok? {
      ArrayIndexIsCanonical(s);
    }
    forall n: nat | n < TWO_64 - 1 && s == IndexText(n) ensures ArrayIndex(s).Ok? {
      ArrayIndexOfText(n);
    }
  }

  /** The token that stands for the place behind the last element is no index. */
  lemma DashIsNoIndex()
    ensures ArrayIndex("-").Throws?
  {
  }

  lemma DashIsNotRead()
    ensures ArrayIndex("-") == Throws(OutOfRange(404))
  {
  }

  /** Different indices have different tokens. */
  lemma IndexTextInjective(m: nat, n: nat)
    requires IndexText(m) == IndexText(n)
    ensures m == n
  {
    IndexTextNumber(m);
    IndexTextNumber(n);
  }

  // ----- printing one more token ---------------------------------------------

  lemma {:induction false} DigitsAreNotEscaped(s: string)
    requires AllDigits(s)
    ensures Escaped(s) == s
  {
    if s != "" {
      assert IsDigit(s[0]);
      DigitsAreNotEscaped(s[1..]);
      assert s == [s[0]] + s[1..];
    }
  }

  /** The path `diff` writes for an array index is the text of the extended pointer. */
  lemma IndexPath(p: seq<string>, i: nat)
    ensures ToText(p) + "/" + IndexText(i) == ToText(p + [IndexText(i)])
  {
    ToTextAppend(p, IndexText(i));
    DigitsAreNotEscaped(IndexText(i));
  }

  lemma KeyPath(p: seq<string>, k: string)
    ensures ToText(p) + "/" + Escaped(k) == ToText(p + [k])
  {
    ToTextAppend(p, k);
  }

  // ----- look-up ------------------------------------------------------------

  /** One step of `get_checked`. */
  function Child(j: Json, token: string): Result<Json> {
    match j
    case Object(m) => if token in m then Ok(m[token]) else Throws(OutOfRange(403))
    case Array(a) =>
      if token == "-" then Throws(OutOfRange(402)) else
        var idx :- ArrayIndex(token);
        if idx < |a| then Ok(a[idx]) else Throws(OutOfRange(401))
    case _ => Throws(OutOfRange(404))
  }

  /** The value a pointer denotes, or why it denotes none. */
  function At(j: Json, path: seq<string>): Result<Json> {
    if path == [] then Ok(j) else
      var c :- Child(j, path[0]);
      At(c, path[1..])
  }

  lemma {:induction false} AtConcat(j: Json, p: seq<string>, q: seq<string>)
    ensures At(j, p + q) == if At(j, p).Ok? then At(At(j, p).value, q) else At(j, p)
    decreases |p|
  {
    hide ArrayIndex;
    if p == [] {
      assert p + q == q;
    } else {
      assert (p + q)[0] == p[0] && (p + q)[1..] == p[1..] + q;
      var c := Child(j, p[0]);
      if c.Ok? { AtConcat(c.value, p[1..], q); }
    }
  }

  lemma AtStep(j: Json, p: seq<string>, t: string)
    requires At(j, p).Ok?
    ensures At(j, p + [t]) == Child(At(j, p).value, t)
  {
    AtConcat(j, p, [t]);
  }

  // ----- why a look-up fails ------------------------------------------------

  /** The error with which a token is turned away at an array. */
  function IndexRefusal(token: string): Exception {
    if token == "-" then OutOfRange(402)
    else if |token| > 1 && token[0] == '0' then ParseError(106)
    else if |token| > 1 && !IsDigit(token[0]) then ParseError(109)
    else if token == "" || !AllDigits(token) then OutOfRange(404)
    else if Number(token) < 0xFFFF_FFFF_FFFF_FFFF then OutOfRange(401)
    else if Number(token) == 0xFFFF_FFFF_FFFF_FFFF then OutOfRange(410)
    else OutOfRange(404)
  }

  lemma IndexRefused(token: string)
    requires ArrayIndex(token).Throws? && token != "-"
    ensures ArrayIndex(token).error == IndexRefusal(token)
  {
    if AllDigits(token) {
      AllDigitsRun(token);
    } else {
      assert token[..|token|] == token;
    }
  }

  lemma DashRefused()
    ensures IndexRefusal("-") == OutOfRange(402)
  {
  }

  lemma IndexRead(token: string)
    requires ArrayIndex(token).Ok?
    ensures ArrayIndex(token).value < 0xFFFF_FFFF_FFFF_FFFF && IndexRefusal(token) == OutOfRange(401)
  {
    assert token[..|token|] == token;
  }

  /** Which children there are: the members of an object by their keys, and the elements of an
      array by the decimal text of their index.  The error for every other token: 403 at an
      object; at an array 402 for the append token, 106 and 109 for a longer token that begins
      with "0" or with no digit, 401 for an index behind the last element, 410 for the largest
      number, and 404 for anything else; 404 at every other value. */
  lemma ChildFound(j: Json, token: string)
    ensures j.Object? ==>
              Child(j, token) == if token in j.members then Ok(j.members[token]) else Throws(OutOfRange(403))
    ensures j.Array? ==> forall i: nat | i < |j.items| && i < 0xFFFF_FFFF_FFFF_FFFF && token == IndexText(i) ::
                           Child(j, token) == Ok(j.items[i])
    ensures j.Array? && (forall i: nat :: i < |j.items| && i < 0xFFFF_FFFF_FFFF_FFFF ==> token != IndexText(i)) ==>
              Child(j, token) == Throws(
                if token == "-" then OutOfRange(402)
                else if |token| > 1 && token[0] == '0' then ParseError(106)
                else if |token| > 1 && !('0' <= token[0] <= '9') then ParseError(109)
                else if token == "" || !AllDigits(token) then OutOfRange(404)
                else if Number(token) < 0xFFFF_FFFF_FFFF_FFFF then OutOfRange(401)
                else if Number(token) == 0xFFFF_FFFF_FFFF_FFFF then OutOfRange(410)
                else OutOfRange(404))
    ensures !j.IsStructured() ==> Child(j, token) == Throws(OutOfRange(404))
  {
    hide ArrayIndex, IndexText, Number;
    if j.Array? {
      DashIsNoIndex();
      forall i: nat | i < |j.items| && i < 0xFFFF_FFFF_FFFF_FFFF && token == IndexText(i)
        ensures Child(j, token) == Ok(j.items[i])
      {
        ArrayIndexOfText(i);
      }
      if forall i: nat :: i < |j.items| && i < 0xFFFF_FFFF_FFFF_FFFF ==> token != IndexText(i) {
        ElementMissing(j.items, token);
      }
    }
  }

  lemma ElementMissing(a: seq<Json>, token: string)
    requires forall i: nat :: i < |a| && i < 0xFFFF_FFFF_FFFF_FFFF ==> token != IndexText(i)
    ensures Child(Array(a), token) == Throws(IndexRefusal(token))
  {
    hide ArrayIndex, IndexText, IndexRefusal;
    if token == "-" {
      DashRefused();
    } else {
      if ArrayIndex(token).Throws? {
        IndexRefused(token);
      } else {
        ArrayIndexIsCanonical(token);
        IndexRead(token);
      }
    }
  }

  /** A look-up fails at its first token that leads nowhere, with the error for that token. */
  lemma {:induction false} LookUpThrows(j: Json, path: seq<string>)
    requires At(j, path).Throws?
    ensures exists n | 0 <= n < |path| ::
              At(j, path[..n]).Ok? && At(j, path) == Child(At(j, path[..n]).value, path[n])
    decreases |path|
  {
    hide Child;
    if Child(j, path[0]).Throws? {
      assert At(j, path[..0]) == Ok(j);
    } else {
      var c, rest := Child(j, path[0]).value, path[1..];
      LookUpThrows(c, rest);
      var n :| 0 <= n < |rest| && At(c, rest[..n]).Ok? && At(c, rest) == Child(At(c, rest[..n]).value, rest[n]);
      assert path[..n + 1][0] == path[0] && path[..n + 1][1..] == rest[..n];
      assert At(j, path[..n + 1]).Ok? && At(j, path) == Child(At(j, path[..n + 1]).value, path[n + 1]);
    }
  }

  /** `get_checked`: follow the tokens one by one. */
  method GetChecked(j: Json, path: seq<string>) returns (r: Result<Json>)
    ensures r == At(j, path)
  {
    var ptr := j;
    assert path[0..] == path;
    for i := 0 to |path|
      invariant At(j, path) == At(ptr, path[i..])
    {
      var token := path[i];
      assert path[i..][0] == token && path[i..][1..] == path[i + 1..];
      match ptr {
        case Object(m) =>
          if token !in m {
            return Throws(OutOfRange(403));
          }
          ptr := m[token];
        case Array(a) =>
          if token == "-" {
            return Throws(OutOfRange(402));
          }
          var idx := ArrayIndex(token);
          if idx.Throws? {
            return Throws(idx.error);
          }
          if idx.value >= |a| {
            return Throws(OutOfRange(401));
          }
          ptr := a[idx.value];
        case _ =>
          return Throws(OutOfRange(404));
      }
    }
    return Ok(ptr);
  }

  /** A token of digits without a leading zero whose value is too large for an index,
      or the empty token: the two cases in which `contains` lets `array_index` throw. */
  predicate BreaksContains(token: string) {
    token == "" ||
    (AllDigits(token) && (|token| > 1 ==> token[0] != '0') && Number(token) >= TWO_64 - 1)
  }

  /** The walk along `path` meets an array with a token on which `contains` throws. */
  predicate MeetsBadToken(j: Json, path: seq<string>) {
    path != [] &&
    ((j.Array? && BreaksContains(path[0])) ||
     (Child(j, path[0]).Ok? && MeetsBadToken(Child(j, path[0]).value, path[1..])))
  }

  /** At [] the pointer "/" makes `contains` throw, while nothing is there. */
  lemma EmptyTokenThrows()
    ensures MeetsBadToken(Array([]), [""]) && At(Array([]), [""]).Throws?
  {
  }

  /** The hand-written digit checks that `contains` makes before it calls `array_index`. */
  method DigitChecks(token: string) returns (pass: bool)
    ensures pass <==> (|token| == 1 ==> IsDigit(token[0])) &&
                      (|token| > 1 ==> token[0] != '0' && AllDigits(token))
  {
    if |token| == 1 && !('0' <= token[0] && token[0] <= '9') {
      return false;
    }
    if |token| > 1 {
      if !('1' <= token[0] && token[0] <= '9') {
        return false;
      }
      for i := 1 to |token|
        invariant forall k | 0 <= k < i :: IsDigit(token[k])
      {
        if !('0' <= token[i] && token[i] <= '9') {
          return false;
        }
      }
    }
    return true;
  }

  /** The digit checks agree with `array_index` on every token: what they turn away
      `array_index` would refuse, and what they let through it refuses only when the
      token is empty or its number is too large. */
  lemma DigitChecksAgree(token: string)
    ensures var pass := (|token| == 1 ==> IsDigit(token[0])) &&
                        (|token| > 1 ==> token[0] != '0' && AllDigits(token));
            && (!pass ==> ArrayIndex(token).Throws?)
            && (pass ==> (ArrayIndex(token).Throws? <==> BreaksContains(token)))
  {
    if AllDigits(token) {
      AllDigitsRun(token);
    } else {
      assert token[..|token|] == token;
    }
  }

  /** `contains`: true exactly when `get_checked` would return; it throws exactly when
      the walk meets an array with an empty or an overlong token. */
  method Contains(j: Json, path: seq<string>) returns (r: Result<bool>)
    ensures r == Ok(true) <==> At(j, path).Ok?
    ensures r.Throws? <==> MeetsBadToken(j, path)
    ensures r.Throws? ==> At(j, path) == Throws(r.error)
  {
    var ptr := j;
    assert path[0..] == path;
    for i := 0 to |path|
      invariant At(j, path) == At(ptr, path[i..])
      invariant MeetsBadToken(j, path) == MeetsBadToken(ptr, path[i..])
    {
      var token := path[i];
      assert path[i..][0] == token && path[i..][1..] == path[i + 1..];
      match ptr {
        case Object(m) =>
          if token !in m {
            return Ok(false);
          }
          ptr := m[token];
        case Array(a) =>
          DigitChecksAgree(token);
          if token == "-" {
            return Ok(false);
          }
          var pass := DigitChecks(token);
          if !pass {
            return Ok(false);
          }
          var idx := ArrayIndex(token);
          if idx.Throws? {
            return Throws(idx.error);
          }
          if idx.value >= |a| {
            return Ok(false);
          }
          ptr := a[idx.value];
        case _ =>
          return Ok(false);
      }
    }
    return Ok(true);
  }
}
