/**
 * The dependency fixer scripts/basic/fixdep.c: the scan of a source file for
 * CONFIG_ words, four bytes at a time, and the newline-separated buffer that
 * remembers which words were already used. Files are sequences of bytes.
 */
module DependencyFixer {

  const CONFIG := "CONFIG_"
  const MODULE := "_MODULE"

  predicate IsIdent(c: char) { 'a' <= c <= 'z' || 'A' <= c <= 'Z' || '0' <= c <= '9' || c == '_' }

  // ----- the naive search -----

  /** memcmp: the bytes from i on start with s. */
  predicate Has(data: string, i: nat, s: string)
    ensures Has(data, i, s) ==> s == [] || i + |s| <= |data|
    decreases |s|
  {
    s == [] || (i < |data| && data[i] == s[0] && Has(data, i + 1, s[1..]))
  }

  lemma {:induction false} HasAt(data: string, i: nat, s: string, j: nat)
    requires Has(data, i, s) && j < |s|
    ensures i + j < |data| && data[i + j] == s[j]
    decreases j
  {
    if j > 0 { HasAt(data, i + 1, s[1..], j - 1); }
  }

  /** Where the identifier characters from i on end. */
  function IdentEnd(data: string, i: nat): (e: nat)
    requires i <= |data|
    ensures i <= e <= |data| && (forall j :: i <= j < e ==> IsIdent(data[j])) && (e < |data| ==> !IsIdent(data[e]))
    decreases |data| - i
  {
    if i == |data| || !IsIdent(data[i]) then i else IdentEnd(data, i + 1)
  }

  /** Where the word at offset o ends: CONFIG_ and an identifier that ends within the
      file, without a _MODULE at its end. Less than o + 7 if there is none. */
  function WordEnd(data: string, o: nat): (n: nat)
    ensures n >= o + 7 ==> Has(data, o, CONFIG) && n <= IdentEnd(data, o + 7)
  {
    if !Has(data, o, CONFIG) then 0
    else
      var e := IdentEnd(data, o + 7);
      if e == |data| then 0 else if Has(data, e - 7, MODULE) then e - 7 else e
  }

  /** The word used at offset o, if any. */
  function UseAt(data: string, o: nat): seq<string> {
    if WordEnd(data, o) < o + 7 then [] else [data[o + 7..WordEnd(data, o)]]
  }

  /** From o to e stands CONFIG_ with an identifier that ends at e, before the end of the file. */
  ghost predicate Word(data: string, o: nat, e: nat) {
    && o + 7 <= e < |data| && data[o..o + 7] == CONFIG
    && (forall j :: o + 7 <= j < e ==> IsIdent(data[j])) && !IsIdent(data[e])
  }

  lemma ConfigAt(data: string, o: nat)
    requires o + 7 <= |data| && data[o..o + 7] == CONFIG
    ensures Has(data, o, CONFIG)
  {
    HasSlice(data, o, CONFIG);
  }

  lemma ModuleAt(data: string, e: nat)
    requires 7 <= e <= |data|
    ensures Has(data, e - 7, MODULE) <==> data[e - 7..e] == MODULE
  {
    HasSlice(data, e - 7, MODULE);
    assert data[e - 7..e - 7 + 7] == data[e - 7..e];
  }

  lemma WordEndIs(data: string, o: nat, e: nat)
    requires Word(data, o, e)
    ensures WordEnd(data, o) == if data[e - 7..e] == MODULE then e - 7 else e
  {
    ConfigAt(data, o);
    IdentEndIs(data, o + 7, e);
    WordEndAt(data, o, e);
    ModuleAt(data, e);
  }

  lemma WordEndAt(data: string, o: nat, e: nat)
    requires Has(data, o, CONFIG) && e == IdentEnd(data, o + 7) < |data|
    ensures WordEnd(data, o) == if Has(data, e - 7, MODULE) then e - 7 else e
  {
  }

  lemma SuffixOf(data: string, o: nat, e: nat, name: string)
    requires Word(data, o, e) && data[o + 7..e] == name + MODULE
    ensures e - 7 >= o + 7 && data[e - 7..e] == MODULE && data[o + 7..e - 7] == name
  {
    var text := data[o + 7..e];
    assert data[e - 7..e] == text[|name|..] && data[o + 7..e - 7] == text[..|name|];
  }

  /** The word used there is the identifier, without _MODULE if it ends so; CONFIG_MODULE
      itself is no use of anything. */
  lemma WordUsed(data: string, o: nat, e: nat, name: string)
    requires Word(data, o, e)
    ensures data[o + 7..e] == name + MODULE ==> UseAt(data, o) == [name]
    ensures data[o + 7..e] == MODULE[1..] ==> UseAt(data, o) == []
    ensures !(exists n: string :: data[o + 7..e] == n + MODULE) && data[o + 7..e] != MODULE[1..] ==>
              UseAt(data, o) == [data[o + 7..e]]
  {
    WordEndIs(data, o, e);
    if data[o + 7..e] == name + MODULE {
      SuffixOf(data, o, e, name);
    } else if data[o + 7..e] == MODULE[1..] {
      OnlyModule(data, o, e);
    } else if data[e - 7..e] == MODULE {
      if e - 7 >= o + 7 {
        assert data[o + 7..e] == data[o + 7..e - 7] + MODULE;
      } else {
        ModuleShort(data, o, e);
      }
    }
  }

  lemma OnlyModule(data: string, o: nat, e: nat)
    requires Word(data, o, e) && data[o + 7..e] == MODULE[1..]
    ensures e == o + 13 && data[e - 7..e] == MODULE
  {
    assert data[o + 6] == data[o..o + 7][6] == '_';
    assert data[o + 6..e] == [data[o + 6]] + data[o + 7..e];
  }

  /** _MODULE can only reach into CONFIG_ by its first byte. */
  lemma ModuleShort(data: string, o: nat, e: nat)
    requires Word(data, o, e) && e - (o + 7) < 7 && data[e - 7..e] == MODULE
    ensures data[o + 7..e] == MODULE[1..]
  {
    var k := o + 7 - (e - 7);
    assert forall j :: 0 <= j < k ==> MODULE[j] == data[e - 7..e][j] == data[e - 7 + j] == data[o..o + 7][7 - k + j];
    assert MODULE[0] == '_' && MODULE[1] == 'M' && MODULE[2] == 'O';
    assert CONFIG[7 - k] == '_' by { assert MODULE[0] == CONFIG[7 - k]; }
    assert k == 1;
    assert data[o + 7..e] == data[e - 7..e][1..];
  }

  /** Nothing else is used. */
  lemma UsedIsWord(data: string, o: nat)
    requires UseAt(data, o) != []
    ensures Word(data, o, IdentEnd(data, o + 7))
  {
    HasSlice(data, o, CONFIG);
  }

  lemma {:induction false} HasSlice(data: string, i: nat, s: string)
    ensures Has(data, i, s) <==> s == [] || (i + |s| <= |data| && data[i..i + |s|] == s)
    decreases |s|
  {
    if s != [] {
      HasSlice(data, i + 1, s[1..]);
      if i + |s| <= |data| { assert data[i..i + |s|] == [data[i]] + data[i + 1..i + 1 + |s[1..]|]; }
    }
  }

  lemma {:induction false} IdentEndIs(data: string, i: nat, e: nat)
    requires i <= e < |data| && (forall j :: i <= j < e ==> IsIdent(data[j])) && !IsIdent(data[e])
    ensures IdentEnd(data, i) == e
    decreases e - i
  {
    if i < e { IdentEndIs(data, i + 1, e); }
  }

  /** The lists u(o), u(o + 1), ... below n, one after the other. */
  function Gather(u: nat -> seq<string>, o: nat, n: nat): seq<string>
    decreases n - o
  {
    if o >= n then [] else u(o) + Gather(u, o + 1, n)
  }

  function UseFn(data: string): nat -> seq<string> { (o: nat) => UseAt(data, o) }

  /** All words used from offset o on, in order. */
  function Uses(data: string, o: nat): seq<string> { Gather(UseFn(data), o, |data|) }

  /** The words are those found at the offsets from o on. */
  lemma {:induction false} FoundIsUsed(u: nat -> seq<string>, o: nat, n: nat, i: nat, name: string)
    requires o <= i < n && u(i) == [name]
    ensures name in Gather(u, o, n)
    decreases i - o
  {
    if o < i { FoundIsUsed(u, o + 1, n, i, name); }
  }

  lemma {:induction false} UsedIsFound(u: nat -> seq<string>, o: nat, n: nat, name: string) returns (i: nat)
    requires name in Gather(u, o, n)
    ensures o <= i < n && name in u(i)
    decreases n - o
  {
    if name in u(o) { i := o; } else { i := UsedIsFound(u, o + 1, n, name); }
  }

  /** If of the lists from o to q only the one at p may have anything, it is all there is. */
  lemma {:induction false} GatherOnly(u: nat -> seq<string>, o: nat, p: int, q: nat, n: nat)
    requires o <= q <= n && forall i: nat :: o <= i < q && i != p ==> u(i) == []
    ensures Gather(u, o, n) == (if o <= p < q then u(p) else []) + Gather(u, q, n)
    decreases q - o
  {
    if o < q {
      GatherOnly(u, o + 1, p, q, n);
      assert Gather(u, o, n) == u(o) + Gather(u, o + 1, n);
    }
  }

  /** A word is used if and only if it is found at some offset. */
  lemma UsesAre(data: string, o: nat, name: string)
    ensures name in Uses(data, o) <==> exists i: nat :: o <= i < |data| && UseAt(data, i) == [name]
  {
    var u := UseFn(data);
    if name in Uses(data, o) {
      var i := UsedIsFound(u, o, |data|, name);
      AtMostOne(data, i);
      assert UseAt(data, i) == [name];
    }
    if i: nat :| o <= i < |data| && UseAt(data, i) == [name] {
      FoundIsUsed(u, o, |data|, i, name);
    }
  }

  lemma AtMostOne(data: string, o: nat)
    ensures |UseAt(data, o)| <= 1
  {
  }

  // ----- the words as a set -----

  /** The words as they are stored: a newline, then each word and a newline. */
  function Body(names: seq<string>): string {
    if names == [] then [] else Body(names[..|names| - 1]) + names[|names| - 1] + "\n"
  }

  predicate NameOk(n: string) { '\n' !in n }

  predicate NamesOk(names: seq<string>) { forall i :: 0 <= i < |names| ==> NameOk(names[i]) }

  /** The word stands at i in the buffer, between newlines. */
  predicate StandsAt(b: string, i: nat, name: string) {
    1 <= i && i + |name| < |b| && b[i - 1] == '\n' && b[i + |name|] == '\n' && b[i..i + |name|] == name
  }

  lemma {:induction false} StandsIfIn(names: seq<string>, name: string) returns (i: nat)
    requires name in names
    ensures StandsAt("\n" + Body(names), i, name)
  {
    var rest, last := names[..|names| - 1], names[|names| - 1];
    var b, c := "\n" + Body(names), "\n" + Body(rest);
    assert b == c + (last + "\n");
    EndsInNewline(rest);
    if name == last {
      i := |c|;
      assert b[i..i + |name|] == name;
    } else {
      i := StandsIfIn(rest, name);
      assert b[i..i + |name|] == c[i..i + |name|];
    }
  }

  lemma EndsInNewline(names: seq<string>)
    ensures var c := "\n" + Body(names); c[|c| - 1] == '\n'
  {
  }

  lemma {:induction false} InIfStands(names: seq<string>, name: string, i: nat)
    requires NamesOk(names) && NameOk(name) && StandsAt("\n" + Body(names), i, name)
    ensures name in names
  {
    if names == [] { return; }
    var rest, last := names[..|names| - 1], names[|names| - 1];
    var b, c := "\n" + Body(names), "\n" + Body(rest);
    assert b == c + (last + "\n");
    EndsInNewline(rest);
    var n := |name|;
    assert forall j :: 0 <= j < n ==> b[i + j] == name[j] by { Elements(b, i, name); }
    assert forall j :: 0 <= j < n ==> name[j] != '\n' by { NoNewline(name); }
    if i == |c| {
      assert forall j :: 0 <= j < |last| ==> last[j] != '\n' && last[j] == b[i + j] by { NoNewline(last); }
      assert b[i + |last|] == '\n';
      assert name == last;
    } else if i < |c| {
      assert b[i + (|c| - 1 - i)] == '\n';
      assert i + n < |c|;
      assert c[i..i + n] == b[i..i + n];
      InIfStands(rest, name, i);
    }
  }

  lemma Elements(b: string, i: nat, name: string)
    requires i + |name| <= |b| && b[i..i + |name|] == name
    ensures forall j :: 0 <= j < |name| ==> b[i + j] == name[j]
  {
    forall j | 0 <= j < |name| ensures b[i + j] == name[j] {
      assert b[i..i + |name|][j] == name[j];
    }
  }

  lemma NoNewline(name: string)
    requires NameOk(name)
    ensures forall j :: 0 <= j < |name| ==> name[j] != '\n'
  {
    forall j | 0 <= j < |name| ensures name[j] != '\n' { assert name[j] in name; }
  }

  // ----- the buffer -----

  /** What the first use of each word emits: the words not seen before, once each. */
  function FirstUses(seen: seq<string>, uses: seq<string>): seq<string>
    decreases |uses|
  {
    if uses == [] then []
    else if uses[0] in seen then FirstUses(seen, uses[1..])
    else [uses[0]] + FirstUses(seen + [uses[0]], uses[1..])
  }

  lemma {:induction false} FirstUsesAppend(seen: seq<string>, a: seq<string>, b: seq<string>)
    ensures FirstUses(seen, a + b) == FirstUses(seen, a) + FirstUses(seen + FirstUses(seen, a), b)
    decreases |a|
  {
    if a == [] {
      assert a + b == b && seen + [] == seen;
    } else {
      assert (a + b)[1..] == a[1..] + b;
      if a[0] in seen {
        FirstUsesAppend(seen, a[1..], b);
      } else {
        FirstUsesAppend(seen + [a[0]], a[1..], b);
        assert seen + [a[0]] + FirstUses(seen + [a[0]], a[1..]) == seen + FirstUses(seen, a);
      }
    }
  }

  lemma Used(seen: seq<string>, a: seq<string>, b: seq<string>, printed: seq<string>)
    ensures seen + FirstUses(seen, a) + FirstUses(seen + FirstUses(seen, a), b) == seen + FirstUses(seen, a + b)
    ensures printed + Paths(FirstUses(seen, a)) + Paths(FirstUses(seen + FirstUses(seen, a), b)) ==
            printed + Paths(FirstUses(seen, a + b))
  {
    FirstUsesAppend(seen, a, b);
  }

  /** Each word used and not seen before is emitted, exactly once. */
  lemma {:induction false} FirstUsesOnce(seen: seq<string>, uses: seq<string>)
    ensures var f := FirstUses(seen, uses);
            && (forall n :: n in f <==> n in uses && n !in seen)
            && (forall i, j :: 0 <= i < j < |f| ==> f[i] != f[j])
    decreases |uses|
  {
    if uses != [] {
      var rest := uses[1..];
      assert forall n :: n in uses <==> n == uses[0] || n in rest;
      if uses[0] in seen {
        FirstUsesOnce(seen, rest);
      } else {
        FirstUsesOnce(seen + [uses[0]], rest);
        var f, g := FirstUses(seen, uses), FirstUses(seen + [uses[0]], rest);
        assert forall i :: 0 < i < |f| ==> f[i] == g[i - 1] && g[i - 1] in g;
      }
    }
  }

  /** The path a word stands for: lower case, underscores become slashes. */
  function PathOf(name: string): string {
    seq(|name|, i requires 0 <= i < |name| => if name[i] == '_' then '/' else ToLower(name[i]))
  }

  function ToLower(c: char): char { if 'A' <= c <= 'Z' then c - 'A' + 'a' else c }

  function Paths(names: seq<string>): seq<string> { seq(|names|, i requires 0 <= i < |names| => PathOf(names[i])) }

  /** The loop over the identifier's characters. */
  method ScanIdent(data: string, i: nat) returns (q: nat)
    requires i <= |data|
    ensures q == IdentEnd(data, i)
  {
    q := i;
    while q < |data| && IsIdent(data[q])
      invariant i <= q <= |data| && IdentEnd(data, q) == IdentEnd(data, i)
    {
      q := q + 1;
    }
  }

  /** The part of the scan from "conf:" to "found:" */
  method FindEnd(data: string, p: nat) returns (n: nat)
    ensures n == WordEnd(data, p)
  {
    if !Has(data, p, CONFIG) { return 0; }
    var q := ScanIdent(data, p + 7);
    if q == |data| { return 0; }
    n := if Has(data, q - 7, MODULE) then q - 7 else q;
  }

  lemma IdentName(data: string, i: nat, n: nat)
    requires i <= n <= |data| && n <= IdentEnd(data, i)
    ensures NameOk(data[i..n])
  {
    var name := data[i..n];
    forall j | 0 <= j < |name| ensures name[j] != '\n' { assert IsIdent(data[i + j]); }
  }

  lemma SliceOf(a: array<char>, len: nat, p: nat, q: nat)
    requires p <= q <= len <= a.Length
    ensures a[..len][p..q] == a[p..q]
  {
    var s, t := a[..len][p..q], a[p..q];
    forall i | 0 <= i < q - p ensures s[i] == t[i] {}
    assert s == t;
  }

  /** The globals str_config (whose length is size_config) and len_config, and what has
      been printed. */
  class Recorder {
    var str: array<char>
    var len: nat
    var printed: seq<string>
    ghost var names: seq<string>

    ghost predicate Valid()
      reads this, str
    {
      len <= str.Length && str[..len] == "\n" + Body(names) && NamesOk(names)
    }

    constructor ()
      ensures Valid() && fresh(str) && names == [] && printed == []
    {
      str := new char[0];
      len, printed, names := 0, [], [];
      new;
      ClearConfig();
    }

    /** grow_config */
    method GrowConfig(n: nat)
      requires len <= str.Length
      modifies this
      ensures len == old(len) && names == old(names) && printed == old(printed)
      ensures len + n <= str.Length && str[..len] == old(str[..len])
      ensures str == old(str) || fresh(str)
    {
      var size := str.Length;
      while len + n > size
        decreases len + n - size
      {
        if size == 0 { size := 2048; }
        size := size * 2;
      }
      if size > str.Length {
        var bigger := new char[size];
        forall i | 0 <= i < len { bigger[i] := str[i]; }
        assert bigger[..len] == str[..len];
        str := bigger;
      }
    }

    /** define_config */
    method DefineConfig(name: string)
      requires len <= str.Length
      modifies this, str
      ensures len <= str.Length && str[..len] == old(str[..len]) + name + "\n"
      ensures printed == old(printed) && names == old(names) && (str == old(str) || fresh(str))
    {
      ghost var before := str[..len];
      GrowConfig(|name| + 1);
      assert str[..len] == before;
      forall i | 0 <= i < |name| { str[len + i] := name[i]; }
      str[len + |name|] := '\n';
      len := len + |name| + 1;
      assert str[..len] == before + name + "\n";
    }

    /** clear_config */
    method ClearConfig()
      modifies this, str
      ensures Valid() && names == [] && printed == old(printed) && (str == old(str) || fresh(str))
    {
      len := 0;
      names := [];
      DefineConfig("");
    }

    /** is_defined_config */
    method IsDefinedConfig(name: string) returns (found: bool)
      requires Valid() && NameOk(name)
      ensures found <==> name in names
    {
      ghost var b := str[..len];
      var p := 1;
      while p + |name| < len
        invariant 1 <= p && b == str[..len] && forall i :: 1 <= i < p ==> !StandsAt(b, i, name)
        decreases len - p
      {
        SliceOf(str, len, p, p + |name|);
        assert b[p - 1] == str[p - 1] && b[p + |name|] == str[p + |name|];
        if str[p - 1] == '\n' && str[p + |name|] == '\n' && str[p..p + |name|] == name {
          InIfStands(names, name, p);
          return true;
        }
        p := p + 1;
      }
      if name in names {
        var i := StandsIfIn(names, name);
      }
      return false;
    }

    /** use_config: a word is recorded and printed the first time. */
    method UseConfig(name: string)
      requires Valid() && NameOk(name)
      modifies this, str
      ensures Valid() && (str == old(str) || fresh(str))
      ensures names == old(names) + FirstUses(old(names), [name])
      ensures printed == old(printed) + Paths(FirstUses(old(names), [name]))
    {
      var defined := IsDefinedConfig(name);
      if defined {
        assert names + [] == names && printed + [] == printed;
        return;
      }
      DefineConfig(name);
      names := names + [name];
      BodyAppend(old(names), name);
      printed := printed + [PathOf(name)];
      assert Paths([name]) == [PathOf(name)];
      assert FirstUses(old(names), [name]) == [name];
    }

    /** A word may start at p. */
    method TryUse(data: string, p: nat)
      requires Valid()
      modifies this, str
      ensures Valid() && (str == old(str) || fresh(str))
      ensures names == old(names) + FirstUses(old(names), UseAt(data, p))
      ensures printed == old(printed) + Paths(FirstUses(old(names), UseAt(data, p)))
    {
      var n := FindEnd(data, p);
      if n < p + 7 { Nothing(); return; }
      IdentName(data, p + 7, n);
      UseConfig(data[p + 7..n]);
    }

    /** Nothing used, nothing changed. */
    lemma Nothing()
      ensures names == names + FirstUses(names, []) && printed == printed + Paths(FirstUses(names, []))
    {
    }

    /** One word of the scan; CONFIG_ may start k bytes before it. */
    method ScanWord(data: string, m: nat, k: nat) returns (ghost use: seq<string>)
      requires Valid() && 4 <= m && k <= 4
      modifies this, str
      ensures use == OffsetUses(data, m, k)
      ensures Valid() && (str == old(str) || fresh(str))
      ensures names == old(names) + FirstUses(old(names), use)
      ensures printed == old(printed) + Paths(FirstUses(old(names), use))
    {
      use := OffsetUses(data, m, k);
      if k < 4 {
        OneOffset(data, m, k);
        TryUse(data, m - k);
      } else {
        Nothing();
      }
    }

    /** parse_config_file: the file is compared word by word from its second word on. The
        last word may reach past the file, into bytes that can be anything. */
    method ParseConfigFile(data: string, pad: string)
      requires Valid() && |pad| == 3
      modifies this, str
      ensures Valid() && (str == old(str) || fresh(str))
      ensures names == old(names) + FirstUses(old(names), Uses(data, 1))
      ensures printed == old(printed) + Paths(FirstUses(old(names), Uses(data, 1)))
    {
      var mapped := data + pad;
      var m := 4;
      ghost var seen, done := names, [];
      Nothing();
      while m < |data|
        invariant 4 <= m && Valid() && (str == old(str) || fresh(str))
        invariant done + Uses(data, m - 3) == Uses(data, 1)
        invariant names == seen + FirstUses(seen, done)
        invariant printed == old(printed) + Paths(FirstUses(seen, done))
        decreases |data| - m
      {
        ghost var use := ScanWord(data, m, WordOffset(mapped[m..m + 4], 0));
        WordStep(data, mapped, m);
        Used(seen, done, use, old(printed));
        Regroup(done, use, Uses(data, m + 1));
        done := done + use;
        m := m + 4;
      }
      NoUses(data, m - 3);
      assert done + [] == done;
    }
  }

  lemma Regroup(a: seq<string>, b: seq<string>, c: seq<string>)
    ensures a + (b + c) == (a + b) + c
  {
  }

  /** How far into CONFIG_ the four bytes are found, from k on; 4 if they are not. */
  function WordOffset(w: string, k: nat): (r: nat)
    requires k <= 4
    ensures k <= r <= 4
    decreases 4 - k
  {
    if k == 4 || w == CONFIG[k..k + 4] then k else WordOffset(w, k + 1)
  }

  lemma {:induction false} WordOffsetIs(j: nat, k: nat)
    requires j <= k <= 3
    ensures WordOffset(CONFIG[k..k + 4], j) == k
    decreases k - j
  {
    if j < k {
      assert CONFIG[k..k + 4][0] != CONFIG[j..j + 4][0];
      WordOffsetIs(j + 1, k);
    }
  }

  /** What is used when CONFIG_ may start k bytes before m. */
  function OffsetUses(data: string, m: nat, k: nat): seq<string>
    requires 4 <= m && k <= 4
  {
    if k == 4 then [] else UseFn(data)(m - k)
  }

  lemma OneOffset(data: string, m: nat, k: nat)
    requires 4 <= m && k < 4
    ensures OffsetUses(data, m, k) == UseAt(data, m - k)
  {
  }

  /** In the last bytes there is no room for a word. */
  lemma {:induction false} NoUses(data: string, o: nat)
    requires o + 7 > |data|
    ensures Uses(data, o) == []
    decreases |data| - o
  {
    if o < |data| {
      assert UseAt(data, o) == [];
      NoUses(data, o + 1);
    }
  }

  /** An occurrence that covers a word shows in the word. */
  lemma Shows(data: string, mapped: string, m: nat, o: nat, u: nat -> seq<string>)
    requires 4 <= m < |data| && |mapped| == |data| + 3 && mapped[..|data|] == data && m - 3 <= o <= m
    requires u == UseFn(data)
    ensures u(o) == [] || WordOffset(mapped[m..m + 4], 0) == m - o
  {
    if u(o) != [] {
      assert Has(data, o, CONFIG);
      WordAt(data, mapped, m, o);
      WordOffsetIs(0, m - o);
    }
  }

  lemma WordAt(data: string, mapped: string, m: nat, o: nat)
    requires 4 <= m < |data| && |mapped| == |data| + 3 && mapped[..|data|] == data && m - 3 <= o <= m
    requires Has(data, o, CONFIG)
    ensures mapped[m..m + 4] == CONFIG[m - o..m - o + 4]
  {
    var w, k := mapped[m..m + 4], m - o;
    forall i | 0 <= i < 4 ensures w[i] == CONFIG[k..k + 4][i] {
      HasAt(data, o, CONFIG, k + i);
      assert w[i] == mapped[..|data|][m + i];
    }
  }

  /** Every occurrence covers exactly one aligned word, so the words find them all, in
      order, once. */
  lemma WordStep(data: string, mapped: string, m: nat)
    requires 4 <= m < |data| && |mapped| == |data| + 3 && mapped[..|data|] == data
    ensures Uses(data, m - 3) == OffsetUses(data, m, WordOffset(mapped[m..m + 4], 0)) + Uses(data, m + 1)
  {
    var k := WordOffset(mapped[m..m + 4], 0);
    Covering(data, mapped, m, UseFn(data), k);
    OffsetStep(data, m, k);
  }

  lemma OffsetStep(data: string, m: nat, k: nat)
    requires 4 <= m < |data| && k <= 4
    requires forall o: nat :: m - 3 <= o < m + 1 && o != m - k ==> UseFn(data)(o) == []
    ensures Uses(data, m - 3) == OffsetUses(data, m, k) + Uses(data, m + 1)
  {
    GatherOnly(UseFn(data), m - 3, m - k, m + 1, |data|);
  }

  lemma Covering(data: string, mapped: string, m: nat, u: nat -> seq<string>, k: nat)
    requires 4 <= m < |data| && |mapped| == |data| + 3 && mapped[..|data|] == data
    requires u == UseFn(data) && k == WordOffset(mapped[m..m + 4], 0)
    ensures forall o: nat :: m - 3 <= o < m + 1 && o != m - k ==> u(o) == []
  {
    forall o: nat | m - 3 <= o < m + 1 && o != m - k ensures u(o) == [] {
      Shows(data, mapped, m, o, u);
    }
  }

  lemma BodyAppend(names: seq<string>, name: string)
    ensures "\n" + Body(names + [name]) == "\n" + Body(names) + name + "\n"
  {
    assert (names + [name])[..|names|] == names;
  }

  /** The words of all files a target depends on. */
  function AllUses(files: seq<string>): seq<string> {
    if files == [] then [] else AllUses(files[..|files| - 1]) + Uses(files[|files| - 1], 1)
  }

  /** The files of one target: each word they use is printed, in the order of first use. */
  method FixTarget(files: seq<string>, pads: seq<string>) returns (printed: seq<string>)
    requires |pads| == |files| && forall i :: 0 <= i < |pads| ==> |pads[i]| == 3
    ensures printed == Paths(FirstUses([], AllUses(files)))
  {
    var r := new Recorder();
    var i := 0;
    while i < |files|
      invariant i <= |files| && fresh(r) && fresh(r.str) && r.Valid()
      invariant r.names == FirstUses([], AllUses(files[..i])) && r.printed == Paths(FirstUses([], AllUses(files[..i])))
    {
      r.ParseConfigFile(files[i], pads[i]);
      NextFile(files, i);
      FirstTwice(AllUses(files[..i]), Uses(files[i], 1));
      i := i + 1;
    }
    assert files[..i] == files;
    printed := r.printed;
  }

  lemma NextFile(files: seq<string>, i: nat)
    requires i < |files|
    ensures AllUses(files[..i + 1]) == AllUses(files[..i]) + Uses(files[i], 1)
  {
    assert files[..i + 1][..i] == files[..i];
  }

  lemma FirstTwice(a: seq<string>, b: seq<string>)
    ensures var f := FirstUses([], a);
            && f + FirstUses(f, b) == FirstUses([], a + b)
            && Paths(f) + Paths(FirstUses(f, b)) == Paths(FirstUses([], a + b))
  {
    FirstUsesAppend([], a, b);
    assert [] + FirstUses([], a) == FirstUses([], a);
  }
}
