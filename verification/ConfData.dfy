/**
 * The .config file: how a symbol's line is printed (conf_write_symbol,
 * sym_escape_string_value) and how the lines are read back (conf_read_simple,
 * conf_set_sym_val), with the in-place unescaping of strings. Text is a sequence
 * of bytes; a C string in a buffer ends at the first NUL.
 */
module ConfigFiles {
  import opened Exprs

  const NUL: char := '\0'
  const PREFIX := "CONFIG_"
  const IS_NOT_SET := "is not set"

  /** A symbol's value: def[].tri, or def[].val. */
  datatype Value = Tri(tri: Tristate) | Str(text: string)

  datatype Saved = Saved(name: string, typ: SymbolType, value: Value)

  // ----- values -----

  predicate IsDigit(c: char) { '0' <= c <= '9' }

  predicate IsHexDigit(c: char) { IsDigit(c) || 'a' <= c <= 'f' || 'A' <= c <= 'F' }

  predicate AllIn(d: string, hex: bool) {
    forall i :: 0 <= i < |d| ==> if hex then IsHexDigit(d[i]) else IsDigit(d[i])
  }

  function SkipMinus(s: string): string { if s != [] && s[0] == '-' then s[1..] else s }

  function Skip0x(s: string): string {
    if |s| >= 2 && s[0] == '0' && (s[1] == 'x' || s[1] == 'X') then s[2..] else s
  }

  predicate NoLeadingZero(d: string) { d != [] && AllIn(d, false) && (d[0] == '0' ==> |d| == 1) }

  /** A decimal number: an optional minus, no leading zeros. */
  predicate IntValid(s: string) { NoLeadingZero(SkipMinus(s)) }

  predicate HexValid(s: string) { Skip0x(s) != [] && AllIn(Skip0x(s), true) }

  /** sym_string_valid on the types whose value is a string. */
  predicate TextValid(typ: SymbolType, s: string) {
    match typ
    case TString => true
    case TInt => IntValid(s)
    case THex => HexValid(s)
    case _ => false
  }

  /** A value the symbol can have: an m only for a tristate, a number as its type asks,
      a string that a C string in one line can hold. */
  predicate ValueOk(typ: SymbolType, v: Value) {
    match typ
    case TBoolean => v == Tri(NO) || v == Tri(YES)
    case TTristate => v.Tri?
    case TString => v.Str? && NUL !in v.text && '\n' !in v.text
    case TInt => v.Str? && IntValid(v.text)
    case THex => v.Str? && HexValid(v.text)
    case _ => false
  }

  predicate NameOk(n: string) { '=' !in n && ' ' !in n && '\n' !in n && NUL !in n }

  // ----- escaping -----

  predicate Special(c: char) { c == '"' || c == '\\' }

  function EscapeTail(s: string): string {
    if s == [] then "\"" else (if Special(s[0]) then ['\\'] else []) + [s[0]] + EscapeTail(s[1..])
  }

  /** The string between quotes, a backslash before every quote and backslash. */
  function Escape(s: string): string { "\"" + EscapeTail(s) }

  /** What the reader makes of the text after the opening quote: the text up to the
      first quote that no backslash precedes, less the backslashes; None if there is
      no such quote. */
  function Unescape(s: string): Option<string> {
    if s == [] then None
    else if s[0] == '"' then Some([])
    else if s[0] == '\\' then if |s| == 1 then None else Prepend([s[1]], Unescape(s[2..]))
    else Prepend([s[0]], Unescape(s[1..]))
  }

  function Prepend(s: string, r: Option<string>): Option<string> {
    if r.None? then None else Some(s + r.value)
  }

  /** The reader undoes what the printer did, whatever follows the closing quote. */
  lemma {:induction false} UnescapeEscape(s: string, rest: string)
    ensures Unescape(EscapeTail(s) + rest) == Some(s)
  {
    var e := EscapeTail(s) + rest;
    if s != [] {
      UnescapeEscape(s[1..], rest);
      if Special(s[0]) {
        assert e[0] == '\\' && e[1] == s[0] && e[2..] == EscapeTail(s[1..]) + rest;
      } else {
        assert e[0] == s[0] && e[1..] == EscapeTail(s[1..]) + rest;
      }
      assert [s[0]] + s[1..] == s;
    }
  }

  function Specials(s: string): nat { if s == [] then 0 else Specials(s[1..]) + if Special(s[0]) then 1 else 0 }

  lemma {:induction false} EscapeLength(s: string)
    ensures |EscapeTail(s)| == |s| + Specials(s) + 1
  {
    if s != [] { EscapeLength(s[1..]); }
  }

  /** strcspn(p, "\"\\") */
  method Span(s: string, from: nat) returns (l: nat)
    requires from <= |s|
    ensures from + l <= |s| && (forall i :: from <= i < from + l ==> !Special(s[i]))
    ensures from + l < |s| ==> Special(s[from + l])
  {
    l := 0;
    while from + l < |s| && !Special(s[from + l])
      invariant from + l <= |s| && forall i :: from <= i < from + l ==> !Special(s[i])
    {
      l := l + 1;
    }
  }

  lemma {:induction false} SpecialsSpan(s: string, l: nat)
    requires l <= |s| && forall i :: 0 <= i < l ==> !Special(s[i])
    ensures Specials(s) == Specials(s[l..])
    decreases l
  {
    if l == 0 {
      assert s[0..] == s;
    } else {
      var t := s[1..];
      assert forall i :: 0 <= i < l - 1 ==> t[i] == s[i + 1];
      SpecialsSpan(t, l - 1);
      assert t[l - 1..] == s[l..];
    }
  }

  lemma {:induction false} TailSpan(s: string, l: nat)
    requires l <= |s| && forall i :: 0 <= i < l ==> !Special(s[i])
    ensures EscapeTail(s) == s[..l] + EscapeTail(s[l..])
    decreases l
  {
    if l == 0 {
      assert s[0..] == s && s[..0] == [];
    } else {
      var t := s[1..];
      assert forall i :: 0 <= i < l - 1 ==> t[i] == s[i + 1];
      TailSpan(t, l - 1);
      assert t[l - 1..] == s[l..] && s[..l] == [s[0]] + t[..l - 1];
      TailHead(s);
      Regroup([s[0]], t[..l - 1], EscapeTail(s[l..]), EscapeTail(s));
    }
  }

  lemma TailHead(s: string)
    requires s != [] && !Special(s[0])
    ensures EscapeTail(s) == [s[0]] + EscapeTail(s[1..])
  {
  }

  /** What one round of the loops deals with: a span, then a special character. */
  lemma EscapeSpan(s: string, p: nat, l: nat)
    requires p + l <= |s| && forall i :: p <= i < p + l ==> !Special(s[i])
    ensures Specials(s[p..]) == Specials(s[p + l..])
    ensures EscapeTail(s[p..]) == s[p..p + l] + EscapeTail(s[p + l..])
  {
    var t := s[p..];
    assert forall i :: 0 <= i < l ==> t[i] == s[p + i];
    SpecialsSpan(t, l);
    TailSpan(t, l);
    assert t[l..] == s[p + l..] && t[..l] == s[p..p + l];
  }

  lemma EscapeSpecial(s: string, p: nat)
    requires p < |s| && Special(s[p])
    ensures Specials(s[p..]) == Specials(s[p + 1..]) + 1
    ensures EscapeTail(s[p..]) == "\\" + ([s[p]] + EscapeTail(s[p + 1..]))
  {
    assert s[p..][1..] == s[p + 1..];
  }

  /** The first loop of sym_escape_string_value: how much room the result needs. */
  method EscapedSize(s: string) returns (size: nat)
    ensures size == |Escape(s)| + 1
  {
    size := |s| + 2 + 1;
    var p := 0;
    assert s[0..] == s;
    while true
      invariant p <= |s| && size + Specials(s[p..]) == |s| + 3 + Specials(s)
      decreases |s| - p
    {
      var l := Span(s, p);
      EscapeSpan(s, p, l);
      p := p + l;
      if p == |s| { break; }
      EscapeSpecial(s, p);
      size := size + 1;
      p := p + 1;
    }
    EscapeLength(s);
  }

  lemma Regroup(a: string, b: string, c: string, e: string)
    requires a + (b + c) == e
    ensures (a + b) + c == e
  {
    assert (a + b) + c == a + (b + c);
  }

  /** sym_escape_string_value: the result fills the allocated buffer exactly. */
  method EscapeStringValue(s: string) returns (res: string)
    ensures res == Escape(s)
  {
    var size := EscapedSize(s);
    res := "\"";
    var p := 0;
    assert s[0..] == s;
    while true
      invariant p <= |s| && res + EscapeTail(s[p..]) == Escape(s)
      decreases |s| - p
    {
      var l := Span(s, p);
      EscapeSpan(s, p, l);
      Regroup(res, s[p..p + l], EscapeTail(s[p + l..]), Escape(s));
      res := res + s[p..p + l];
      p := p + l;
      if p == |s| { break; }
      EscapeSpecial(s, p);
      Regroup(res, "\\", [s[p]] + EscapeTail(s[p + 1..]), Escape(s));
      res := res + "\\";
      Regroup(res, [s[p]], EscapeTail(s[p + 1..]), Escape(s));
      res := res + [s[p]];
      p := p + 1;
    }
    res := res + "\"";
    assert |res| + 1 == size;
  }

  // ----- C strings in a buffer -----

  /** The string at the start of the bytes: up to the first NUL. */
  function CStr(b: seq<char>): string { if b == [] || b[0] == NUL then [] else [b[0]] + CStr(b[1..]) }

  lemma {:induction false} CStrIs(b: seq<char>, n: nat)
    requires n < |b| && b[n] == NUL && forall i :: 0 <= i < n ==> b[i] != NUL
    ensures CStr(b) == b[..n]
  {
    if n > 0 {
      CStrIs(b[1..], n - 1);
      assert [b[0]] + b[1..][..n - 1] == b[..n];
    }
  }

  lemma {:induction false} CStrEnds(b: seq<char>)
    requires NUL in b
    ensures |CStr(b)| < |b| && CStr(b) == b[..|CStr(b)|] && b[|CStr(b)|] == NUL && NUL !in CStr(b)
  {
    if b[0] != NUL { CStrEnds(b[1..]); }
  }

  /** strlen */
  method StrLen(buf: array<char>, p: nat) returns (l: nat)
    requires p <= buf.Length && NUL in buf[p..]
    ensures l == |CStr(buf[p..])| && p + l < buf.Length && buf[p + l] == NUL
    ensures forall i :: p <= i < p + l ==> buf[i] != NUL
  {
    CStrEnds(buf[p..]);
    l := 0;
    while buf[p + l] != NUL
      invariant p + l < buf.Length && l <= |CStr(buf[p..])|
      invariant forall i :: p <= i < p + l ==> buf[i] != NUL
      decreases buf.Length - l
    {
      l := l + 1;
    }
    CStrIs(buf[p..], l);
  }

  /** memmove(p, p + 1, strlen(p)): the string loses its first character; its old
      terminator stays where it was. */
  method CloseGap(buf: array<char>, p: nat)
    requires p < buf.Length && NUL in buf[p..] && buf[p] != NUL
    modifies buf
    ensures buf[..p] == old(buf[..p]) && |old(CStr(buf[p..]))| > 0
    ensures CStr(buf[p..]) == old(CStr(buf[p..]))[1..]
    ensures NUL in buf[p + 1..] && (|old(CStr(buf[p..]))| == 1 ==> buf[p] == buf[p + 1] == NUL)
  {
    ghost var was := buf[p..];
    var l := StrLen(buf, p);
    CStrEnds(was);
    assert was[l] == NUL;
    forall i | p <= i < p + l { buf[i] := buf[i + 1]; }
    assert forall i :: p <= i < p + l ==> buf[i] == was[i - p + 1];
    assert buf[p..][l - 1] == NUL;
    CStrIs(buf[p..], l - 1);
    assert CStr(buf[p..]) == CStr(was)[1..];
    assert buf[p + 1..][l - 1] == NUL;
  }

  /** strpbrk(p, "\"\\"): the next quote or backslash, or the end of the string. */
  method FindSpecial(buf: array<char>, p: nat) returns (q: nat)
    requires p <= buf.Length && NUL in buf[p..]
    ensures p <= q < buf.Length && (buf[q] == NUL || Special(buf[q])) && NUL in buf[q..]
    ensures forall i :: p <= i < q ==> buf[i] != NUL && !Special(buf[i])
  {
    q := p;
    while buf[q] != NUL && !Special(buf[q])
      invariant p <= q < buf.Length && NUL in buf[q..]
      invariant forall i :: p <= i < q ==> buf[i] != NUL && !Special(buf[i])
      decreases buf.Length - q
    {
      assert buf[q..] == [buf[q]] + buf[q + 1..];
      q := q + 1;
    }
  }

  lemma {:induction false} UnescapePlain(a: string, b: string)
    requires forall i :: 0 <= i < |a| ==> !Special(a[i])
    ensures Unescape(a + b) == Prepend(a, Unescape(b))
  {
    if a == [] {
      assert a + b == b;
      PrependNone(Unescape(b));
    } else {
      UnescapePlain(a[1..], b);
      assert (a + b)[1..] == a[1..] + b;
      if Unescape(b).Some? { assert [a[0]] + (a[1..] + Unescape(b).value) == a + Unescape(b).value; }
    }
  }

  lemma {:induction false} CStrSplit(b: seq<char>, n: nat)
    requires n <= |b| && forall i :: 0 <= i < n ==> b[i] != NUL
    ensures CStr(b) == b[..n] + CStr(b[n..])
  {
    if n == 0 {
      assert b[0..] == b;
    } else {
      CStrSplit(b[1..], n - 1);
      assert b[1..][n - 1..] == b[n..];
      FirstAndRest(b, n, CStr(b[n..]));
    }
  }

  lemma FirstAndRest(b: seq<char>, n: nat, s: string)
    requires 0 < n <= |b|
    ensures [b[0]] + (b[1..][..n - 1] + s) == b[..n] + s
  {
    assert [b[0]] + b[1..][..n - 1] == b[..n];
  }

  lemma PrependTwice(a: string, b: string, r: Option<string>)
    ensures Prepend(a, Prepend(b, r)) == Prepend(a + b, r)
  {
    if r.Some? { assert a + (b + r.value) == a + b + r.value; }
  }

  lemma PrependNone(r: Option<string>)
    ensures Prepend([], r) == r
  {
    if r.Some? { assert [] + r.value == r.value; }
  }

  /** The loop has got to p: what it started with, at k, stands for u; up to p the
      buffer holds the start of u, and what is left stands for the rest. */
  ghost predicate Unquoting(b: seq<char>, k: nat, p: nat, u: Option<string>) {
    && k <= p <= |b| && NUL in b[p..]
    && u == Prepend(b[k..p], Unescape(CStr(b[p..])))
    && (CStr(b[p..]) == [] || NUL !in b[k..p])
  }

  /** A round of the loop: the text runs plainly up to q. */
  lemma PlainRound(b: seq<char>, k: nat, p: nat, q: nat, u: Option<string>)
    requires Unquoting(b, k, p, u) && p <= q <= |b| && NUL in b[q..]
    requires forall i :: p <= i < q ==> b[i] != NUL && !Special(b[i])
    ensures Unquoting(b, k, q, u) && |CStr(b[q..])| <= |CStr(b[p..])|
  {
    PlainText(b, p, q);
    var mid, rest := b[p..q], CStr(b[q..]);
    UnescapePlain(mid, rest);
    PrependTwice(b[k..p], mid, Unescape(rest));
    assert b[k..q] == b[k..p] + mid;
  }

  lemma PlainText(b: seq<char>, p: nat, q: nat)
    requires p <= q <= |b| && forall i :: p <= i < q ==> b[i] != NUL
    ensures CStr(b[p..]) == b[p..q] + CStr(b[q..]) && NUL !in b[p..q]
  {
    var t := b[p..];
    assert forall i :: 0 <= i < q - p ==> t[i] == b[p + i];
    CStrSplit(t, q - p);
    assert t[..q - p] == b[p..q] && t[q - p..] == b[q..];
  }

  /** ... and at q there was a backslash, now closed up: c is the buffer after. */
  lemma EscapeRound(b: seq<char>, c: seq<char>, k: nat, q: nat, u: Option<string>)
    requires Unquoting(b, k, q, u) && q < |b| == |c| && b[q] == '\\' && c[..q] == b[..q] && NUL in c[q + 1..]
    requires CStr(c[q..]) == CStr(b[q..])[1..]
    requires |CStr(b[q..])| == 1 ==> c[q] == c[q + 1] == NUL
    ensures Unquoting(c, k, q + 1, u) && |CStr(c[q + 1..])| < |CStr(b[q..])|
  {
    var s := CStr(b[q..]);
    assert s[0] == '\\';
    assert c[k..q] == b[k..q] by { assert c[k..q] == c[..q][k..] && b[k..q] == b[..q][k..]; }
    assert c[k..q + 1] == b[k..q] + [c[q]];
    if |s| == 1 {
      assert Unescape(s) == None;
    } else {
      assert c[q..][1..] == c[q + 1..] && c[q] != NUL;
      assert s[1..] == [c[q]] + CStr(c[q + 1..]);
      assert s[2..] == s[1..][1..] == CStr(c[q + 1..]);
      PrependTwice(b[k..q], [c[q]], Unescape(s[2..]));
    }
  }

  lemma QuoteRound(b: seq<char>, k: nat, q: nat, u: Option<string>)
    requires Unquoting(b, k, q, u) && q < |b| && b[q] == '"'
    ensures u == Some(b[k..q]) && CStr(b[q := NUL][k..]) == b[k..q] && NUL in b[q := NUL][k..]
  {
    assert CStr(b[q..])[0] == '"';
    assert b[k..q] + [] == b[k..q];
    var t := b[q := NUL][k..];
    assert t[q - k] == NUL && forall i :: 0 <= i < q - k ==> t[i] == b[k..q][i];
    CStrIs(t, q - k);
    assert t[..q - k] == b[k..q];
  }

  lemma EndRound(b: seq<char>, k: nat, q: nat, u: Option<string>)
    requires Unquoting(b, k, q, u) && q < |b| && b[q] == NUL
    ensures u == None
  {
    assert b[q..][0] == NUL;
  }

  /** The unescaping loop of conf_set_sym_val, on the text after the opening quote: the
      text is replaced by the string it stands for, or reported to have no end. */
  method Unquote(buf: array<char>, k: nat) returns (ok: bool)
    requires k <= buf.Length && NUL in buf[k..]
    modifies buf
    ensures buf[..k] == old(buf[..k])
    ensures ok <==> old(Unescape(CStr(buf[k..]))).Some?
    ensures ok ==> NUL in buf[k..] && CStr(buf[k..]) == old(Unescape(CStr(buf[k..]))).value
  {
    ghost var u := Unescape(CStr(buf[k..]));
    PrependNone(u);
    assert buf[..][k..] == buf[k..] && buf[..][k..k] == [];
    ghost var before := buf[..k];
    var p: nat, more := k, true;
    ok := false;
    while more
      invariant p <= buf.Length && buf[..k] == before
      invariant more ==> !ok && Unquoting(buf[..], k, p, u)
      invariant !more ==> (ok <==> u.Some?) && (ok ==> NUL in buf[k..] && CStr(buf[k..]) == u.value)
      decreases more, |CStr(buf[..][p..])|
    {
      more, ok, p := UnquoteRound(buf, k, p, u);
    }
  }

  /** One round: up to the next quote, which ends the string, or backslash. */
  method UnquoteRound(buf: array<char>, k: nat, p: nat, ghost u: Option<string>) returns (more: bool, ok: bool, p': nat)
    requires Unquoting(buf[..], k, p, u)
    modifies buf
    ensures buf[..k] == old(buf[..k]) && p' <= buf.Length
    ensures more ==> !ok && Unquoting(buf[..], k, p', u) && |CStr(buf[..][p'..])| < |old(CStr(buf[..][p..]))|
    ensures !more ==> (ok <==> u.Some?) && (ok ==> NUL in buf[k..] && CStr(buf[k..]) == u.value)
  {
    var q := NextSpecial(buf, k, p, u);
    more, ok, p' := UnquoteAt(buf, k, q, u);
  }

  /** The text ends, a quote ends the string, or a backslash is dropped. */
  method UnquoteAt(buf: array<char>, k: nat, q: nat, ghost u: Option<string>) returns (more: bool, ok: bool, p': nat)
    requires Unquoting(buf[..], k, q, u) && q < buf.Length && (buf[q] == NUL || Special(buf[q]))
    modifies buf
    ensures buf[..k] == old(buf[..k]) && p' <= buf.Length
    ensures more ==> !ok && Unquoting(buf[..], k, p', u) && |CStr(buf[..][p'..])| < |old(CStr(buf[..][q..]))|
    ensures !more ==> (ok <==> u.Some?) && (ok ==> NUL in buf[k..] && CStr(buf[k..]) == u.value)
  {
    if buf[q] == NUL {
      EndRound(buf[..], k, q, u);
      return false, false, q;
    }
    if buf[q] == '"' {
      CutAt(buf, k, q, u);
      return false, true, q;
    }
    CloseUp(buf, k, q, u);
    return true, false, q + 1;
  }

  method NextSpecial(buf: array<char>, k: nat, p: nat, ghost u: Option<string>) returns (q: nat)
    requires Unquoting(buf[..], k, p, u)
    ensures q < buf.Length && (buf[q] == NUL || Special(buf[q])) && Unquoting(buf[..], k, q, u)
    ensures |CStr(buf[..][q..])| <= |CStr(buf[..][p..])|
  {
    assert buf[..][p..] == buf[p..];
    q := FindSpecial(buf, p);
    assert buf[..][q..] == buf[q..];
    PlainRound(buf[..], k, p, q, u);
  }

  method CutAt(buf: array<char>, k: nat, q: nat, ghost u: Option<string>)
    requires Unquoting(buf[..], k, q, u) && q < buf.Length && buf[q] == '"'
    modifies buf
    ensures buf[..k] == old(buf[..k]) && NUL in buf[k..] && u == Some(CStr(buf[k..]))
  {
    ghost var b := buf[..];
    QuoteRound(b, k, q, u);
    buf[q] := NUL;
    assert buf[..] == b[q := NUL] && buf[..][k..] == buf[k..];
    assert buf[..k] == b[..k];
  }

  method CloseUp(buf: array<char>, k: nat, q: nat, ghost u: Option<string>)
    requires Unquoting(buf[..], k, q, u) && q < buf.Length && buf[q] == '\\'
    modifies buf
    ensures Unquoting(buf[..], k, q + 1, u) && buf[..k] == old(buf[..k])
    ensures |CStr(buf[..][q + 1..])| < |old(CStr(buf[..][q..]))|
  {
    ghost var b := buf[..];
    assert b[q..] == buf[q..];
    CloseGap(buf, q);
    ghost var c := buf[..];
    assert c[q..] == buf[q..] && c[q + 1..] == buf[q + 1..] && c[..q] == buf[..q];
    EscapeRound(b, c, k, q, u);
    assert c[..k] == c[..q][..k] && b[..k] == b[..q][..k];
  }

  // ----- setting a value -----

  /** What conf_set_sym_val does: return 1, leave the symbol alone, or set its value
      (and turn S_OTHER into S_STRING). */
  datatype Outcome = Rejected | Untouched | Set(value: Value, typ: SymbolType)

  function SetText(typ: SymbolType, s: string): Outcome {
    if TextValid(typ, s) then Set(Str(s), typ) else Rejected
  }

  function SetQuoted(typ: SymbolType, s: string): Outcome {
    if s == [] || s[0] != '"' then Untouched
    else match Unescape(s[1..]) case None => Rejected case Some(t) => SetText(typ, t)
  }

  function SetVal(typ: SymbolType, s: string): Outcome {
    match typ
    case TTristate =>
      if s != [] && s[0] == 'm' then Set(Tri(MOD), typ) else if s != [] && s[0] == 'y' then Set(Tri(YES), typ)
      else if s != [] && s[0] == 'n' then Set(Tri(NO), typ) else Rejected
    case TBoolean =>
      if s != [] && s[0] == 'y' then Set(Tri(YES), typ)
      else if s != [] && s[0] == 'n' then Set(Tri(NO), typ)
      else Rejected
    case TOther => if s == [] || s[0] != '"' then SetText(TString, s) else SetQuoted(typ, s)
    case TString => SetQuoted(typ, s)
    case TInt => SetText(typ, s)
    case THex => SetText(typ, s)
    case TUnknown => Untouched
  }

  /** isdigit or isxdigit over the rest of the string */
  method AllDigits(buf: array<char>, p: nat, hex: bool) returns (ok: bool)
    requires p <= buf.Length && NUL in buf[p..]
    ensures ok == AllIn(CStr(buf[p..]), hex)
  {
    ghost var s := CStr(buf[p..]);
    CStrEnds(buf[p..]);
    var n := 0;
    while buf[p + n] != NUL
      invariant n <= |s| && p + |s| < buf.Length
      invariant forall i :: 0 <= i < n ==> (if hex then IsHexDigit(s[i]) else IsDigit(s[i]))
      decreases |s| - n
    {
      assert buf[p..][n] == s[n];
      if !(if hex then IsHexDigit(buf[p + n]) else IsDigit(buf[p + n])) { return false; }
      n := n + 1;
    }
    assert buf[p..][n] == NUL;
    return true;
  }

  lemma CStrHead(b: seq<char>, p: nat)
    requires p < |b| && NUL in b[p..]
    ensures b[p] == NUL ==> CStr(b[p..]) == []
    ensures b[p] != NUL ==> p + 1 < |b| && NUL in b[p + 1..] && CStr(b[p..]) != [] && CStr(b[p..])[0] == b[p]
    ensures b[p] != NUL ==> CStr(b[p..])[1..] == CStr(b[p + 1..])
  {
    assert b[p..][1..] == b[p + 1..] && b[p..] == [b[p]] + b[p + 1..];
  }

  /** sym_string_valid */
  method StringValid(typ: SymbolType, buf: array<char>, p: nat) returns (ok: bool)
    requires p < buf.Length && NUL in buf[p..]
    ensures ok == TextValid(typ, CStr(buf[p..]))
  {
    match typ {
      case TString => ok := true;
      case TInt => ok := IntTextValid(buf, p);
      case THex => ok := HexTextValid(buf, p);
      case _ => ok := false;
    }
  }

  method IntTextValid(buf: array<char>, p: nat) returns (ok: bool)
    requires p < buf.Length && NUL in buf[p..]
    ensures ok == IntValid(CStr(buf[p..]))
  {
    var q := p;
    HeadOf(buf, p);
    if buf[q] == '-' { q := q + 1; }
    assert CStr(buf[q..]) == SkipMinus(CStr(buf[p..]));
    ok := DigitsValid(buf, q);
  }

  method DigitsValid(buf: array<char>, q: nat) returns (ok: bool)
    requires q < buf.Length && NUL in buf[q..]
    ensures ok == NoLeadingZero(CStr(buf[q..]))
  {
    ghost var d := CStr(buf[q..]);
    HeadOf(buf, q);
    if !IsDigit(buf[q]) {
      assert d != [] ==> d[0] == buf[q];
      return false;
    }
    HeadOf(buf, q + 1);
    if buf[q] == '0' && buf[q + 1] != NUL { return false; }
    ok := AllDigits(buf, q + 1, false);
    assert d == [d[0]] + d[1..];
    assert AllIn(d, false) <==> IsDigit(d[0]) && AllIn(d[1..], false) by {
      if AllIn(d[1..], false) && IsDigit(d[0]) {
        forall i | 0 <= i < |d| ensures IsDigit(d[i]) { if i > 0 { assert d[i] == d[1..][i - 1]; } }
      }
      if AllIn(d, false) {
        forall i | 0 <= i < |d[1..]| ensures IsDigit(d[1..][i]) { assert d[1..][i] == d[i + 1]; }
      }
    }
  }

  lemma HeadOf(buf: array<char>, p: nat)
    requires p < buf.Length && NUL in buf[p..]
    ensures buf[p] == NUL ==> CStr(buf[p..]) == []
    ensures buf[p] != NUL ==> p + 1 < buf.Length && NUL in buf[p + 1..] && CStr(buf[p..]) != []
    ensures buf[p] != NUL ==> CStr(buf[p..])[0] == buf[p] && CStr(buf[p..])[1..] == CStr(buf[p + 1..])
  {
    CStrHead(buf[..], p);
    assert buf[..][p..] == buf[p..];
    if buf[p] != NUL { assert buf[..][p + 1..] == buf[p + 1..]; }
  }

  method HexTextValid(buf: array<char>, p: nat) returns (ok: bool)
    requires p < buf.Length && NUL in buf[p..]
    ensures ok == HexValid(CStr(buf[p..]))
  {
    var q := p;
    ghost var s := CStr(buf[p..]);
    HeadOf(buf, p);
    if buf[p] == '0' {
      HeadOf(buf, p + 1);
      if buf[p + 1] != NUL { assert s[1] == s[1..][0] && s[1..][1..] == s[2..]; }
      if buf[p + 1] == 'x' || buf[p + 1] == 'X' { q := p + 2; }
    }
    assert CStr(buf[q..]) == Skip0x(s);
    HeadOf(buf, q);
    ok := AllDigits(buf, q, true);
    if buf[q] == NUL { ok := false; }
  }

  /** strdup */
  method StrDup(buf: array<char>, p: nat) returns (s: string)
    requires p < buf.Length && NUL in buf[p..]
    ensures s == CStr(buf[p..])
  {
    var l := StrLen(buf, p);
    s := buf[p..p + l];
    assert forall i :: 0 <= i < l ==> buf[p..][i] == buf[p + i];
    CStrIs(buf[p..], l);
    assert buf[p..][..l] == s;
  }

  method SetTextAt(typ: SymbolType, buf: array<char>, p: nat) returns (o: Outcome)
    requires p < buf.Length && NUL in buf[p..]
    ensures o == SetText(typ, CStr(buf[p..]))
  {
    var valid := StringValid(typ, buf, p);
    if !valid { return Rejected; }
    var s := StrDup(buf, p);
    o := Set(Str(s), typ);
  }

  method SetQuotedAt(typ: SymbolType, buf: array<char>, p: nat) returns (o: Outcome)
    requires p < buf.Length && NUL in buf[p..]
    modifies buf
    ensures o == SetQuoted(typ, old(CStr(buf[p..])))
  {
    HeadOf(buf, p);
    if buf[p] != '"' { return Untouched; }
    var ok := Unquote(buf, p + 1);
    if !ok { return Rejected; }
    o := SetTextAt(typ, buf, p + 1);
  }

  /** conf_set_sym_val */
  method SetSymVal(typ: SymbolType, buf: array<char>, p: nat) returns (o: Outcome)
    requires p < buf.Length && NUL in buf[p..]
    modifies buf
    ensures o == SetVal(typ, old(CStr(buf[p..])))
  {
    HeadOf(buf, p);
    match typ {
      case TTristate =>
        if buf[p] == 'm' { return Set(Tri(MOD), typ); }
        if buf[p] == 'y' { return Set(Tri(YES), typ); }
        if buf[p] == 'n' { return Set(Tri(NO), typ); }
        return Rejected;
      case TBoolean =>
        if buf[p] == 'y' { return Set(Tri(YES), typ); }
        if buf[p] == 'n' { return Set(Tri(NO), typ); }
        return Rejected;
      case TOther => if buf[p] != '"' { o := SetTextAt(TString, buf, p); } else { o := SetQuotedAt(typ, buf, p); }
      case TString => o := SetQuotedAt(typ, buf, p);
      case TInt => o := SetTextAt(typ, buf, p);
      case THex => o := SetTextAt(typ, buf, p);
      case TUnknown => o := Untouched;
    }
  }

  // ----- lines -----

  /** Where a character first occurs, or the length. */
  function Find(s: string, c: char): (n: nat)
    ensures n <= |s| && (n < |s| ==> s[n] == c) && forall i :: 0 <= i < n ==> s[i] != c
  {
    if s == [] || s[0] == c then 0 else 1 + Find(s[1..], c)
  }

  lemma FindIs(s: string, c: char, n: nat)
    requires n <= |s| && (n < |s| ==> s[n] == c) && forall i :: 0 <= i < n ==> s[i] != c
    ensures Find(s, c) == n
  {
  }

  /** The table of symbols: their types and the values the file gives them. */
  datatype Config = Config(types: map<string, SymbolType>, values: map<string, Value>)

  /** The value on a line: without the line end. */
  function Trim(t: string): string {
    var n := Find(t, '\n');
    if n < |t| && n > 0 && t[n - 1] == '\r' then t[..n - 1] else t[..n]
  }

  function Unset(c: Config, name: string): Config {
    if name in c.types && TwoOrThreeValued(c.types[name]) then c.(values := c.values[name := Tri(NO)]) else c
  }

  function Assign(c: Config, name: string, text: string): Config {
    if name !in c.types then c
    else match SetVal(c.types[name], text)
      case Set(v, typ) => Config(c.types[name := typ], c.values[name := v])
      case _ => c
  }

  /** What one line does: "# CONFIG_name is not set" or "CONFIG_name=value"; anything
      else is ignored. */
  function LineStep(c: Config, line: string): Config {
    if line != [] && line[0] == '#' then
      if |line| < 9 || line[2..9] != PREFIX then c
      else
        var rest := CStr(line[9..]);
        var i := Find(rest, ' ');
        if i == |rest| || !(IS_NOT_SET <= rest[i + 1..]) then c else Unset(c, rest[..i])
    else if |line| < 7 || line[..7] != PREFIX then c
    else
      var rest := CStr(line[7..]);
      var i := Find(rest, '=');
      if i == |rest| then c else Assign(c, rest[..i], Trim(rest[i + 1..]))
  }

  /** The length of the first line, its newline included. */
  function LineLength(file: string): (n: nat)
    ensures n <= |file| && (file != [] ==> n > 0)
  {
    var n := Find(file, '\n');
    if n < |file| then n + 1 else n
  }

  function ReadAll(c: Config, file: string): Config
    decreases |file|
  {
    if file == [] then c else ReadAll(LineStep(c, file[..LineLength(file)]), file[LineLength(file)..])
  }

  // ----- which texts are values -----

  function Digit(n: nat): char
    requires n < 10
  {
    ['0', '1', '2', '3', '4', '5', '6', '7', '8', '9'][n]
  }

  function Decimal(n: nat): string { if n < 10 then [Digit(n)] else Decimal(n / 10) + [Digit(n % 10)] }

  function DigitValue(c: char): nat
    requires IsDigit(c)
  {
    c as int - '0' as int
  }

  lemma {:induction false} DecimalValid(n: nat)
    ensures NoLeadingZero(Decimal(n)) && (Decimal(n)[0] == '0' ==> n == 0)
  {
    if n >= 10 { DecimalValid(n / 10); }
  }

  lemma {:induction false} ValidDecimal(d: string) returns (n: nat)
    requires NoLeadingZero(d)
    ensures d == Decimal(n) && (n == 0 ==> d == "0")
  {
    var k := |d| - 1;
    if k == 0 {
      n := DigitValue(d[0]);
    } else {
      var m := ValidDecimal(d[..k]);
      n := 10 * m + DigitValue(d[k]);
      assert m > 0 && n / 10 == m && n % 10 == DigitValue(d[k]);
      assert d == d[..k] + [d[k]];
    }
  }

  /** The valid texts of an int symbol are the numbers in decimal notation, perhaps with a minus. */
  lemma IntExact(s: string)
    ensures IntValid(s) <==> exists n: nat :: s == Decimal(n) || s == "-" + Decimal(n)
  {
    if IntValid(s) {
      var n := ValidDecimal(SkipMinus(s));
      if s[0] == '-' { assert s == "-" + s[1..]; }
    }
    forall n: nat | s == Decimal(n) || s == "-" + Decimal(n) ensures IntValid(s) {
      DecimalValid(n);
      assert ("-" + Decimal(n))[1..] == Decimal(n);
    }
  }

  /** Those of a hex symbol are hexadecimal digits, perhaps after 0x. */
  lemma HexExact(s: string)
    ensures HexValid(s) <==> exists d: string :: d != [] && AllIn(d, true) && s in {d, "0x" + d, "0X" + d}
  {
    if HexValid(s) {
      var d := Skip0x(s);
      assert s == d || s == s[..2] + d;
      assert s != d ==> s[..2] == "0x" || s[..2] == "0X";
    }
    forall d: string | d != [] && AllIn(d, true) && s in {d, "0x" + d, "0X" + d} ensures HexValid(s) {
      assert s != d ==> s[2..] == d;
      assert |d| >= 2 ==> IsHexDigit(d[1]);
    }
  }

  /** What is done with a text: of a bool or tristate symbol only the first letter counts, a
      number must be valid, a string begins with a quote and must have another one. */
  lemma SetValExact(typ: SymbolType, s: string)
    ensures TwoOrThreeValued(typ) && s != [] && s[0] == 'y' ==> SetVal(typ, s) == Set(Tri(YES), typ)
    ensures TwoOrThreeValued(typ) && s != [] && s[0] == 'n' ==> SetVal(typ, s) == Set(Tri(NO), typ)
    ensures typ == TTristate && s != [] && s[0] == 'm' ==> SetVal(typ, s) == Set(Tri(MOD), typ)
    ensures typ == TTristate && (s == [] || s[0] !in "ymn") ==> SetVal(typ, s) == Rejected
    ensures typ == TBoolean && (s == [] || s[0] !in "yn") ==> SetVal(typ, s) == Rejected
    ensures typ == TInt ==> SetVal(typ, s) == if IntValid(s) then Set(Str(s), typ) else Rejected
    ensures typ == THex ==> SetVal(typ, s) == if HexValid(s) then Set(Str(s), typ) else Rejected
    ensures typ == TString && (s == [] || s[0] != '"') ==> SetVal(typ, s) == Untouched
    ensures typ == TOther && (s == [] || s[0] != '"') ==> SetVal(typ, s) == Set(Str(s), TString)
  {
  }

  /** A quoted text is the string it was escaped from. */
  lemma SetQuotedExact(text: string, rest: string)
    ensures SetVal(TString, Escape(text) + rest) == Set(Str(text), TString)
  {
    UnescapeEscape(text, rest);
    assert (Escape(text) + rest)[1..] == EscapeTail(text) + rest;
  }

  /** The line end, and a carriage return before it, do not belong to the value. */
  lemma TrimExact(t: string, rest: string)
    requires '\n' !in t
    ensures Trim(t) == t
    ensures t == [] || t[|t| - 1] != '\r' ==> Trim(t + "\n" + rest) == t
    ensures Trim(t + "\r\n" + rest) == t
  {
    FindIs(t, '\n', |t|);
    FindIs(t + "\n" + rest, '\n', |t|);
    FindIs(t + "\r\n" + rest, '\n', |t| + 1);
  }

  lemma UnsetParts(text: string, line: string)
    requires line == "# " + PREFIX + text
    ensures |line| >= 9 && line[0] == '#' && line[2..9] == PREFIX && line[9..] == text
  {
  }

  lemma UnsetText(name: string, tail: string, text: string)
    requires ' ' !in name && text == name + " " + tail
    ensures Find(text, ' ') == |name| < |text| && text[..|name|] == name && text[|name| + 1..] == tail
  {
    FindIs(text, ' ', |name|);
  }

  lemma SetPrefix(rest: string)
    ensures IS_NOT_SET <= IS_NOT_SET + rest
  {
  }

  /** "# CONFIG_name is not set", whatever follows, makes a bool or tristate symbol n. */
  lemma UnsetLine(c: Config, name: string, rest: string, text: string)
    requires NameOk(name) && NUL !in rest && text == name + " " + (IS_NOT_SET + rest)
    ensures LineStep(c, "# " + PREFIX + text) == Unset(c, name)
  {
    UnsetParts(text, "# " + PREFIX + text);
    NoNul(text);
    UnsetText(name, IS_NOT_SET + rest, text);
    SetPrefix(rest);
  }

  // ----- what any file can do -----

  /** Every value is one its symbol can have. */
  predicate ConfigOk(c: Config) {
    forall n :: n in c.values ==> n in c.types && ValueOk(c.types[n], c.values[n])
  }

  lemma {:induction false} UnescapeChars(s: string, c: char)
    ensures Unescape(s).Some? && c in Unescape(s).value ==> c in s
  {
    if s != [] && s[0] != '"' {
      if s[0] == '\\' && |s| > 1 {
        UnescapeChars(s[2..], c);
      } else if s[0] != '\\' {
        UnescapeChars(s[1..], c);
      }
    }
  }

  /** conf_set_sym_val sets nothing but a value of the symbol's type, on which it insists
      unless it knows none. */
  lemma SetValOk(typ: SymbolType, s: string)
    requires '\n' !in s && NUL !in s && SetVal(typ, s).Set?
    ensures ValueOk(SetVal(typ, s).typ, SetVal(typ, s).value)
    ensures SetVal(typ, s).typ == if typ == TOther then TString else typ
  {
    if s != [] {
      UnescapeChars(s[1..], '\n');
      UnescapeChars(s[1..], NUL);
    }
  }

  lemma {:induction false} CStrNoNul(b: seq<char>)
    ensures NUL !in CStr(b)
  {
    if b != [] && b[0] != NUL { CStrNoNul(b[1..]); }
  }

  lemma TrimOneLine(t: string)
    ensures '\n' !in Trim(t) && forall c :: c in Trim(t) ==> c in t
  {
  }

  lemma AssignOk(c: Config, name: string, text: string)
    requires ConfigOk(c) && '\n' !in text && NUL !in text
    ensures ConfigOk(Assign(c, name, text))
  {
    if name in c.types && SetVal(c.types[name], text).Set? { SetValOk(c.types[name], text); }
  }

  lemma LineOk(c: Config, line: string)
    requires ConfigOk(c)
    ensures ConfigOk(LineStep(c, line))
  {
    if |line| >= 7 && line[0] != '#' && line[..7] == PREFIX {
      var rest := CStr(line[7..]);
      var i := Find(rest, '=');
      CStrNoNul(line[7..]);
      if i < |rest| {
        TrimOneLine(rest[i + 1..]);
        AssignOk(c, rest[..i], Trim(rest[i + 1..]));
      }
    }
  }

  /** Whatever is in the file, no symbol gets a value that it cannot have. */
  lemma {:induction false} ReadOk(c: Config, file: string)
    requires ConfigOk(c)
    ensures ConfigOk(ReadAll(c, file))
    decreases |file|
  {
    if file != [] {
      LineOk(c, file[..LineLength(file)]);
      ReadOk(LineStep(c, file[..LineLength(file)]), file[LineLength(file)..]);
    }
  }

  /** One line concerns one symbol at most, which is named in it. */
  lemma LineChangesOne(c: Config, line: string) returns (name: string)
    ensures var c' := LineStep(c, line);
            && c'.types.Keys == c.types.Keys
            && (forall n :: n in c.types && n != name ==> c'.types[n] == c.types[n])
            && (forall n :: n != name ==> (n in c'.values <==> n in c.values))
            && (forall n :: n in c.values && n != name ==> c'.values[n] == c.values[n])
            && (c' != c ==> name in c.types && exists i, j :: 0 <= i <= j <= |line| && line[i..j] == name)
  {
    name := [];
    if line != [] && line[0] == '#' {
      if |line| >= 9 && line[2..9] == PREFIX {
        var rest := CStr(line[9..]);
        name := rest[..Find(rest, ' ')];
        NamedIn(line, 9, name, rest);
      }
    } else if |line| >= 7 && line[..7] == PREFIX {
      var rest := CStr(line[7..]);
      name := rest[..Find(rest, '=')];
      NamedIn(line, 7, name, rest);
    }
  }

  lemma NamedIn(line: string, k: nat, name: string, rest: string)
    requires k <= |line| && rest == CStr(line[k..]) && name <= rest
    ensures k + |name| <= |line| && line[k..k + |name|] == name
  {
    CStrPrefix(line[k..]);
    assert line[k..][..|name|] == line[k..k + |name|];
  }

  lemma {:induction false} CStrPrefix(b: seq<char>)
    ensures CStr(b) <= b
  {
    if b != [] && b[0] != NUL { CStrPrefix(b[1..]); }
  }

  // ----- printing -----

  function ValueText(v: Value): string { if v.Tri? then TriString(v.tri) else v.text }

  /** conf_write_symbol with kconfig_print_symbol. */
  function PrintSymbol(s: Saved): string {
    var text := if s.typ == TString then Escape(ValueText(s.value)) else ValueText(s.value);
    if s.typ == TOther || s.typ == TUnknown then []
    else if TwoOrThreeValued(s.typ) && text != [] && text[0] == 'n' then
      "# " + PREFIX + s.name + " " + IS_NOT_SET + "\n"
    else PREFIX + s.name + "=" + text + "\n"
  }

  function PrintAll(saved: seq<Saved>): string {
    if saved == [] then [] else PrintSymbol(saved[0]) + PrintAll(saved[1..])
  }

  // ----- the round trip -----

  predicate SavedOk(c: Config, s: Saved) {
    NameOk(s.name) && ValueOk(s.typ, s.value) && s.name in c.types && c.types[s.name] == s.typ
  }

  function WithValue(c: Config, s: Saved): Config { c.(values := c.values[s.name := s.value]) }

  /** The text of a valid value has no line end and no NUL, and does not end in a
      carriage return. */
  predicate OneLine(t: string) { t != [] && '\n' !in t && NUL !in t && t[|t| - 1] != '\r' }

  predicate PlainChar(c: char) { IsHexDigit(c) || c == '-' || c == 'x' || c == 'X' }

  lemma PlainOneLine(a: string, d: string)
    requires d != [] && (forall i :: 0 <= i < |a| ==> PlainChar(a[i])) && (forall i :: 0 <= i < |d| ==> PlainChar(d[i]))
    ensures OneLine(a + d)
  {
    var s := a + d;
    forall i | 0 <= i < |s| ensures PlainChar(s[i]) {
      if i >= |a| { assert s[i] == d[i - |a|]; } else { assert s[i] == a[i]; }
    }
  }

  lemma IntOneLine(s: string)
    requires IntValid(s)
    ensures OneLine(s)
  {
    var d := SkipMinus(s);
    var a := if d == s then [] else [s[0]];
    assert s == a + d;
    PlainOneLine(a, d);
  }

  lemma HexOneLine(s: string)
    requires HexValid(s)
    ensures OneLine(s)
  {
    var d := Skip0x(s);
    var a := if |d| == |s| then [] else s[..2];
    assert s == a + d;
    PlainOneLine(a, d);
  }

  lemma {:induction false} EscapeOneLine(s: string)
    requires '\n' !in s && NUL !in s
    ensures OneLine(EscapeTail(s))
  {
    if s != [] {
      assert s[0] in s && forall c :: c in s[1..] ==> c in s;
      EscapeOneLine(s[1..]);
    }
  }

  lemma TrimText(t: string)
    requires OneLine(t)
    ensures Trim(t + "\n") == t
  {
    var l := t + "\n";
    assert forall i :: 0 <= i < |t| ==> l[i] == t[i] && t[i] in t;
    FindIs(l, '\n', |t|);
    assert l[..|t|] == t;
  }

  /** The two parts around the separator of a line. */
  lemma Separated(name: string, c: char, text: string)
    requires c !in name && NUL !in name && NUL !in text && c != NUL
    ensures var rest := CStr(name + [c] + text);
            Find(rest, c) == |name| < |rest| && rest[..|name|] == name && rest[|name| + 1..] == text
  {
    var s := name + [c] + text;
    assert NUL !in s;
    NoNul(s);
    FindSplit(name, c, text);
    assert s[..|name|] == name && s[|name| + 1..] == text;
  }

  lemma {:induction false} FindSplit(name: string, c: char, text: string)
    requires c !in name
    ensures Find(name + [c] + text, c) == |name|
  {
    var s := name + [c] + text;
    if name != [] {
      assert s[1..] == name[1..] + [c] + text && s[0] == name[0] && name[0] in name;
      assert c !in name[1..];
      FindSplit(name[1..], c, text);
    }
  }

  lemma {:induction false} NoNul(s: string)
    requires NUL !in s
    ensures CStr(s) == s
  {
    if s != [] {
      assert s[0] in s && forall c :: c in s[1..] ==> c in s;
      NoNul(s[1..]);
    }
  }

  lemma AssignLine(c: Config, name: string, text: string)
    requires NameOk(name) && NUL !in text
    ensures LineStep(c, PREFIX + name + "=" + text + "\n") == Assign(c, name, Trim(text + "\n"))
  {
    PrefixLine(name, text);
    Separated(name, '=', text + "\n");
  }

  /** What is read back for an assigned value. */
  lemma AssignBack(c: Config, s: Saved, text: string)
    requires SavedOk(c, s) && OneLine(text) && SetVal(s.typ, text) == Set(s.value, s.typ)
    ensures LineStep(c, PREFIX + s.name + "=" + text + "\n") == WithValue(c, s)
  {
    AssignLine(c, s.name, text);
    TrimText(text);
    assert c.types[s.name := s.typ] == c.types;
  }

  lemma PrefixLine(name: string, text: string)
    ensures var line, after := PREFIX + name + "=" + text + "\n", name + "=" + (text + "\n");
            |line| >= 7 && line[..7] == PREFIX && line[7..] == after && line[0] == 'C'
  {
    assert PREFIX + name + "=" + text + "\n" == PREFIX + (name + "=" + (text + "\n"));
  }

  lemma UnsetBack(c: Config, s: Saved)
    requires SavedOk(c, s) && TwoOrThreeValued(s.typ) && s.value == Tri(NO)
    ensures LineStep(c, "# " + PREFIX + s.name + " " + IS_NOT_SET + "\n") == WithValue(c, s)
  {
    var line := "# " + PREFIX + s.name + " " + IS_NOT_SET + "\n";
    var after := s.name + " " + (IS_NOT_SET + "\n");
    assert line == "# " + PREFIX + after;
    assert line[2..9] == PREFIX && line[9..] == after && line[0] == '#';
    Separated(s.name, ' ', IS_NOT_SET + "\n");
    assert IS_NOT_SET <= IS_NOT_SET + "\n";
  }

  /** Reading one printed line restores the symbol's value. */
  lemma LineRoundTrip(c: Config, s: Saved)
    requires SavedOk(c, s)
    ensures LineStep(c, PrintSymbol(s)) == WithValue(c, s)
  {
    var text := ValueText(s.value);
    match s.typ
    case TString =>
      EscapeOneLine(text);
      assert OneLine(Escape(text));
      UnescapeEscape(text, []);
      assert Escape(text)[1..] == EscapeTail(text) == EscapeTail(text) + [];
      AssignBack(c, s, Escape(text));
    case TInt =>
      IntOneLine(text);
      AssignBack(c, s, text);
    case THex =>
      HexOneLine(text);
      AssignBack(c, s, text);
    case _ =>
      if s.value == Tri(NO) { UnsetBack(c, s); } else { AssignBack(c, s, text); }
  }

  /** The text of a line: printed without its newline. */
  predicate IsLine(l: string) { l != [] && l[|l| - 1] == '\n' && '\n' !in l[..|l| - 1] }

  lemma ReadFirst(c: Config, l: string, rest: string)
    requires IsLine(l)
    ensures ReadAll(c, l + rest) == ReadAll(LineStep(c, l), rest)
  {
    var name, file := l[..|l| - 1], l + rest;
    FindSplit(name, '\n', rest);
    assert name + ['\n'] + rest == file;
    assert LineLength(file) == |l| && file[..|l|] == l && file[|l|..] == rest;
  }

  lemma AddNewline(t: string)
    requires '\n' !in t
    ensures IsLine(t + "\n")
  {
    assert (t + "\n")[..|t|] == t;
  }

  lemma PrintedLine(c: Config, s: Saved)
    requires SavedOk(c, s)
    ensures IsLine(PrintSymbol(s))
  {
    var text := ValueText(s.value);
    match s.typ
    case TString => EscapeOneLine(text); AssignedLine(s.name, Escape(text));
    case TInt => IntOneLine(text); AssignedLine(s.name, text);
    case THex => HexOneLine(text); AssignedLine(s.name, text);
    case _ => AssignedLine(s.name, text); AddNewline("# " + PREFIX + s.name + " " + IS_NOT_SET);
  }

  lemma AssignedLine(name: string, text: string)
    requires NameOk(name) && '\n' !in text
    ensures IsLine(PREFIX + name + "=" + text + "\n")
  {
    AddNewline(PREFIX + name + "=" + text);
  }

  function WithAll(c: Config, saved: seq<Saved>): Config
    decreases |saved|
  {
    if saved == [] then c else WithAll(WithValue(c, saved[0]), saved[1..])
  }

  lemma {:induction false} ReadPrinted(c: Config, saved: seq<Saved>)
    requires forall i :: 0 <= i < |saved| ==> SavedOk(c, saved[i])
    ensures ReadAll(c, PrintAll(saved)) == WithAll(c, saved)
    decreases |saved|
  {
    if saved != [] {
      var s, rest := saved[0], saved[1..];
      LineRoundTrip(c, s);
      PrintedLine(c, s);
      ReadFirst(c, PrintSymbol(s), PrintAll(rest));
      assert forall i :: 0 <= i < |rest| ==> rest[i] == saved[i + 1];
      ReadPrinted(WithValue(c, s), rest);
    }
  }

  predicate DistinctNames(saved: seq<Saved>) {
    forall i, j :: 0 <= i < j < |saved| ==> saved[i].name != saved[j].name
  }

  lemma {:induction false} WithAllValues(c: Config, saved: seq<Saved>)
    requires DistinctNames(saved)
    ensures var v := WithAll(c, saved).values;
            && (forall i :: 0 <= i < |saved| ==> saved[i].name in v && v[saved[i].name] == saved[i].value)
            && (forall n :: (forall i :: 0 <= i < |saved| ==> saved[i].name != n) ==>
                            (n in v <==> n in c.values) && (n in v ==> v[n] == c.values[n]))
    decreases |saved|
  {
    if saved != [] {
      var d := WithValue(c, saved[0]);
      var rest := saved[1..];
      WithAllValues(d, rest);
      forall i | 0 <= i < |rest| ensures rest[i] == saved[i + 1] {}
      assert forall i :: 0 < i < |saved| ==> saved[i] == rest[i - 1];
    }
  }

  /** The round trip: reading what was printed gives every symbol its value back, and no
      other symbol has one. */
  lemma ConfigRoundTrip(types: map<string, SymbolType>, saved: seq<Saved>)
    requires DistinctNames(saved) && forall i :: 0 <= i < |saved| ==> SavedOk(Config(types, map[]), saved[i])
    ensures var c := ReadAll(Config(types, map[]), PrintAll(saved));
            && c.types == types
            && (forall i :: 0 <= i < |saved| ==> saved[i].name in c.values && c.values[saved[i].name] == saved[i].value)
            && (forall n :: n in c.values ==> exists i :: 0 <= i < |saved| && saved[i].name == n)
  {
    var c := Config(types, map[]);
    ReadPrinted(c, saved);
    WithAllValues(c, saved);
    WithAllTypes(c, saved);
  }

  lemma {:induction false} WithAllTypes(c: Config, saved: seq<Saved>)
    ensures WithAll(c, saved).types == c.types
    decreases |saved|
  {
    if saved != [] { WithAllTypes(WithValue(c, saved[0]), saved[1..]); }
  }

  // ----- reading in place -----

  lemma {:induction false} CStrPad(a: seq<char>)
    ensures CStr(a + [NUL]) == CStr(a)
  {
    if a != [] {
      assert (a + [NUL])[1..] == a[1..] + [NUL];
      CStrPad(a[1..]);
    }
  }

  /** strchr; the string's end if there is none. */
  method StrChr(buf: array<char>, p: nat, c: char) returns (q: nat)
    requires p < buf.Length && NUL in buf[p..] && c != NUL
    ensures q == p + Find(CStr(buf[p..]), c) && q < buf.Length
    ensures buf[q] == if Find(CStr(buf[p..]), c) < |CStr(buf[p..])| then c else NUL
  {
    ghost var s := CStr(buf[p..]);
    CStrEnds(buf[p..]);
    var n := 0;
    while buf[p + n] != NUL && buf[p + n] != c
      invariant n <= |s| && p + |s| < buf.Length && forall i :: 0 <= i < n ==> s[i] != c
      decreases |s| - n
    {
      assert buf[p..][n] == buf[p + n];
      n := n + 1;
    }
    assert buf[p..][n] == buf[p + n] && (n < |s| ==> s[n] == buf[p + n]);
    FindIs(s, c, n);
    q := p + n;
  }

  /** strncmp with a literal */
  method StartsWith(buf: array<char>, p: nat, lit: string) returns (same: bool)
    requires p < buf.Length && NUL in buf[p..] && NUL !in lit
    ensures same == (lit <= CStr(buf[p..]))
  {
    ghost var s := CStr(buf[p..]);
    CStrEnds(buf[p..]);
    var n := 0;
    while n < |lit|
      invariant n <= |lit| && n <= |s| && p + |s| < buf.Length && lit[..n] == s[..n]
    {
      assert buf[p..][n] == buf[p + n] && lit[n] in lit;
      assert n < |s| ==> s[n] == buf[p + n];
      if buf[p + n] != lit[n] {
        assert n < |s| ==> s[n] != lit[n];
        return false;
      }
      assert lit[..n + 1] == lit[..n] + [lit[n]] && s[..n + 1] == s[..n] + [s[n]];
      n := n + 1;
    }
    assert lit[..n] == lit;
    return true;
  }

  /** A string cut in two by a NUL. */
  lemma CutString(b: seq<char>, p: nat, i: nat)
    requires p < |b| && NUL in b[p..] && i < |CStr(b[p..])|
    ensures p + i + 1 < |b|
    ensures var s, c := CStr(b[p..]), b[p + i := NUL];
            NUL in c[p..] && CStr(c[p..]) == s[..i] && NUL in c[p + i + 1..] && CStr(c[p + i + 1..]) == s[i + 1..]
  {
    CStrEnds(b[p..]);
    CutFirst(b[p..], i);
    CutRest(b[p..], i);
    assert b[p + i := NUL][p..] == b[p..][i := NUL];
    assert b[p + i := NUL][p + i + 1..] == b[p..][i + 1..];
  }

  lemma CutFirst(t: seq<char>, i: nat)
    requires NUL in t && i < |CStr(t)| < |t|
    ensures NUL in t[i := NUL] && CStr(t[i := NUL]) == CStr(t)[..i]
  {
    CStrEnds(t);
    var s, c := CStr(t), t[i := NUL];
    assert forall j :: 0 <= j < i ==> c[j] == s[j] && s[j] in s;
    assert c[i] == NUL;
    CStrIs(c, i);
    assert c[..i] == s[..i];
  }

  lemma CutRest(t: seq<char>, i: nat)
    requires NUL in t && i < |CStr(t)| < |t|
    ensures NUL in t[i + 1..] && CStr(t[i + 1..]) == CStr(t)[i + 1..]
  {
    CStrEnds(t);
    var s, c, n := CStr(t), t[i + 1..], |CStr(t)| - i - 1;
    assert c[..n] == s[i + 1..] by { assert t[..|s|] == s; }
    forall j | 0 <= j < n ensures c[j] != NUL { assert c[..n][j] == c[j] && s[i + 1..][j] in s; }
    assert c[n] == NUL;
    CStrIs(c, n);
  }

  method CutAtIndex(buf: array<char>, p: nat, q: nat)
    requires p <= q < buf.Length && NUL in buf[p..] && q - p < |CStr(buf[p..])|
    modifies buf
    ensures q + 1 < buf.Length && NUL in buf[p..] && NUL in buf[q + 1..] && buf[q] == NUL && buf[..q] == old(buf[..q])
    ensures CStr(buf[p..]) == old(CStr(buf[p..]))[..q - p]
    ensures CStr(buf[q + 1..]) == old(CStr(buf[p..]))[q - p + 1..]
  {
    ghost var b := buf[..];
    assert b[p..] == buf[p..];
    CutString(b, p, q - p);
    buf[q] := NUL;
    ghost var c := buf[..];
    assert c == b[q := NUL] && c[p..] == buf[p..] && c[q + 1..] == buf[q + 1..];
  }

  /** The line end is cut off the value at p, which follows a cut. */
  method TrimAt(buf: array<char>, p: nat)
    requires 0 < p < buf.Length && NUL in buf[p..] && buf[p - 1] == NUL
    modifies buf
    ensures NUL in buf[p..] && CStr(buf[p..]) == Trim(old(CStr(buf[p..])))
  {
    ghost var t := CStr(buf[p..]);
    CStrEnds(buf[p..]);
    var q := StrChr(buf, p, '\n');
    if buf[q] == NUL {
      assert t[..|t|] == t;
      return;
    }
    ghost var b := buf[..q];
    CutAtIndex(buf, p, q);
    assert buf[p - 1] == buf[..q][p - 1] == b[p - 1];
    DropReturn(buf, p, q, t);
  }

  lemma LastOf(buf: array<char>, p: nat)
    requires p < buf.Length && NUL in buf[p..]
    ensures var s := CStr(buf[p..]); s != [] ==> p + |s| < buf.Length && buf[p + |s| - 1] == s[|s| - 1]
  {
    CStrEnds(buf[p..]);
    var s := CStr(buf[p..]);
    if s != [] { assert buf[p..][|s| - 1] == buf[p + |s| - 1]; }
  }

  /** ... and the carriage return before it. */
  method DropReturn(buf: array<char>, p: nat, q: nat, ghost t: string)
    requires 0 < p <= q < buf.Length && NUL in buf[p..] && buf[p - 1] == NUL
    requires q - p == Find(t, '\n') < |t| && CStr(buf[p..]) == t[..q - p]
    modifies buf
    ensures NUL in buf[p..] && CStr(buf[p..]) == Trim(t)
  {
    LastOf(buf, p);
    TrimLine(t);
    if buf[q - 1] == '\r' { CutAtIndex(buf, p, q - 1); }
  }

  /** What Trim cuts off after the line end has gone. */
  lemma TrimLine(t: string)
    ensures var s := t[..Find(t, '\n')];
            Find(t, '\n') < |t| ==>
              Trim(t) == if s != [] && s[|s| - 1] == '\r' then s[..|s| - 1] else s
  {
    var n := Find(t, '\n');
    if 0 < n < |t| { assert t[..n][n - 1] == t[n - 1] && t[..n][..n - 1] == t[..n - 1]; }
  }

  /** The symbols while a file is read: their types, and the values of those that have
      one (def[] and SYMBOL_DEF). */
  class ConfReader {
    var types: map<string, SymbolType>
    var values: map<string, Value>

    constructor (types: map<string, SymbolType>)
      ensures this.types == types && values == map[]
    {
      this.types, values := types, map[];
    }

    ghost function Table(): Config reads this { Config(types, values) }

    /** "# CONFIG_name is not set", in the buffer */
    method ReadUnset(buf: array<char>)
      requires buf.Length >= 10 && NUL in buf[9..]
      modifies this, buf
      ensures var rest := old(CStr(buf[9..])); var i := Find(rest, ' ');
              Table() == if i == |rest| || !(IS_NOT_SET <= rest[i + 1..]) then old(Table())
                         else Unset(old(Table()), rest[..i])
    {
      var p := StrChr(buf, 9, ' ');
      if buf[p] == NUL { return; }
      CutAtIndex(buf, 9, p);
      var same := StartsWith(buf, p + 1, IS_NOT_SET);
      if !same { return; }
      var name := StrDup(buf, 9);
      UnsetName(name);
    }

    method UnsetName(name: string)
      modifies this`values
      ensures Table() == Unset(old(Table()), name)
    {
      if name in types && TwoOrThreeValued(types[name]) { values := values[name := Tri(NO)]; }
    }

    /** "CONFIG_name=value", in the buffer */
    method ReadAssignment(buf: array<char>)
      requires buf.Length >= 8 && NUL in buf[7..]
      modifies this, buf
      ensures var rest := old(CStr(buf[7..])); var i := Find(rest, '=');
              Table() == if i == |rest| then old(Table()) else Assign(old(Table()), rest[..i], Trim(rest[i + 1..]))
    {
      var p := StrChr(buf, 7, '=');
      if buf[p] == NUL { return; }
      CutAtIndex(buf, 7, p);
      var name := StrDup(buf, 7);
      TrimAt(buf, p + 1);
      Store(name, buf, p + 1);
    }

    method Store(name: string, buf: array<char>, p: nat)
      requires p < buf.Length && NUL in buf[p..]
      modifies this, buf
      ensures Table() == Assign(old(Table()), name, old(CStr(buf[p..])))
    {
      if name !in types { return; }
      var o := SetSymVal(types[name], buf, p);
      if o.Set? {
        types := types[name := o.typ];
        values := values[name := o.value];
      }
    }

    /** One round of the loop of conf_read_simple. */
    method ReadLine(line: string)
      requires line != []
      modifies this
      ensures Table() == LineStep(old(Table()), line)
    {
      var buf := new char[|line| + 1];
      forall i | 0 <= i <= |line| { buf[i] := if i < |line| then line[i] else NUL; }
      assert buf[..] == line + [NUL];
      if buf[0] == '#' {
        if |line| < 9 || line[2..9] != PREFIX { return; }
        Terminated(buf, line, 9);
        ReadUnset(buf);
      } else if |line| >= 7 && line[..7] == PREFIX {
        Terminated(buf, line, 7);
        ReadAssignment(buf);
      }
    }

    lemma Terminated(buf: array<char>, line: string, n: nat)
      requires buf[..] == line + [NUL] && n <= |line|
      ensures NUL in buf[n..] && CStr(buf[n..]) == CStr(line[n..])
    {
      assert buf[n..] == buf[..][n..] == line[n..] + [NUL];
      CStrPad(line[n..]);
    }

    /** conf_read_simple: all values are dropped, then the file is read line by line. */
    method ReadSimple(file: string)
      modifies this
      ensures Table() == ReadAll(Config(old(types), map[]), file)
    {
      values := map[];
      ghost var goal := ReadAll(Table(), file);
      var pos := 0;
      assert file[0..] == file;
      while pos < |file|
        invariant pos <= |file| && ReadAll(Table(), file[pos..]) == goal
      {
        pos := ReadNext(file, pos, goal);
      }
      ReadNothing(Table(), file[pos..]);
    }

    /** One round: the next line is read and takes its effect. */
    method ReadNext(file: string, pos: nat, ghost goal: Config) returns (pos': nat)
      requires pos < |file| && ReadAll(Table(), file[pos..]) == goal
      modifies this
      ensures pos < pos' <= |file| && ReadAll(Table(), file[pos'..]) == goal
    {
      var line := GetLine(file, pos);
      pos' := pos + |line|;
      ReadStep(Table(), file, pos, pos', line, goal);
      ReadLine(line);
    }
  }

  lemma ReadNothing(c: Config, file: string)
    requires file == []
    ensures ReadAll(c, file) == c
  {
  }

  lemma ReadStep(c: Config, file: string, pos: nat, pos': nat, line: string, goal: Config)
    requires pos < |file| && line == file[pos..][..LineLength(file[pos..])] && pos' == pos + |line|
    requires ReadAll(c, file[pos..]) == goal
    ensures line != [] && pos < pos' <= |file|
    ensures ReadAll(LineStep(c, line), file[pos'..]) == goal
  {
    assert file[pos..][|line|..] == file[pos'..];
  }

  /** compat_getline: the bytes up to and including the next newline. */
  method GetLine(file: string, pos: nat) returns (line: string)
    requires pos < |file|
    ensures line == file[pos..][..LineLength(file[pos..])]
  {
    ghost var f := file[pos..];
    line := [];
    while pos + |line| < |file|
      invariant pos + |line| <= |file| && line == f[..|line|] && '\n' !in line
      decreases |file| - |line|
    {
      var c := file[pos + |line|];
      assert f[|line|] == c && f[..|line| + 1] == f[..|line|] + [c];
      line := line + [c];
      if c == '\n' {
        FindIs(f, '\n', |line| - 1);
        return;
      }
    }
    FindIs(f, '\n', |f|);
  }

  /** The lines as conf_write writes them. */
  method WriteAll(saved: seq<Saved>) returns (file: string)
    requires forall i :: 0 <= i < |saved| ==> ValueOk(saved[i].typ, saved[i].value)
    ensures file == PrintAll(saved)
  {
    file := [];
    var n := 0;
    assert saved[0..] == saved;
    while n < |saved|
      invariant n <= |saved| && file + PrintAll(saved[n..]) == PrintAll(saved)
    {
      var line := WriteSymbol(saved[n]);
      assert saved[n..][1..] == saved[n + 1..];
      Regroup(file, line, PrintAll(saved[n + 1..]), PrintAll(saved));
      file := file + line;
      n := n + 1;
    }
  }

  method WriteSymbol(s: Saved) returns (line: string)
    requires ValueOk(s.typ, s.value)
    ensures line == PrintSymbol(s)
  {
    if s.typ == TString {
      var text := EscapeStringValue(s.value.text);
      return PREFIX + s.name + "=" + text + "\n";
    }
    var text := ValueText(s.value);
    if TwoOrThreeValued(s.typ) && text[0] == 'n' { return "# " + PREFIX + s.name + " " + IS_NOT_SET + "\n"; }
    return PREFIX + s.name + "=" + text + "\n";
  }

  /** Write the symbols, and read the file into a fresh table of the same types. */
  method WriteAndRead(types: map<string, SymbolType>, saved: seq<Saved>) returns (values: map<string, Value>)
    requires DistinctNames(saved) && forall i :: 0 <= i < |saved| ==> SavedOk(Config(types, map[]), saved[i])
    ensures forall i :: 0 <= i < |saved| ==> saved[i].name in values && values[saved[i].name] == saved[i].value
    ensures forall n :: n in values ==> exists i :: 0 <= i < |saved| && saved[i].name == n
  {
    var file := WriteAll(saved);
    var reader := new ConfReader(types);
    reader.ReadSimple(file);
    ConfigRoundTrip(types, saved);
    values := reader.values;
  }
}
