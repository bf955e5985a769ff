/** Column-header normalisation of `data_validation`: strip the surrounding whitespace,
    drop every byte-order mark, lower-case, and turn each space into an underscore. */
module Headers {
  import opened Lists

  /** The byte-order mark U+FEFF. Python does not count it as whitespace. */
  const Bom: char := '\U{FEFF}'

  /** The characters for which Python's `str.isspace` holds: those `str.strip()` removes. */
  const Whitespace: set<char> := {
      '\t', '\n', '\U{0B}', '\U{0C}', '\r', '\U{1C}', '\U{1D}', '\U{1E}',
      '\U{1F}', ' ', '\U{85}', '\U{A0}', '\U{1680}', '\U{2000}', '\U{2001}', '\U{2002}',
      '\U{2003}', '\U{2004}', '\U{2005}', '\U{2006}', '\U{2007}', '\U{2008}', '\U{2009}', '\U{200A}',
      '\U{2028}', '\U{2029}', '\U{202F}', '\U{205F}', '\U{3000}'
    }

  predicate IsSpace(c: char) {
    c in Whitespace
  }

  ghost predicate AllSpace(s: string) {
    forall i :: 0 <= i < |s| ==> IsSpace(s[i])
  }

  /** The length of the longest all-whitespace prefix. */
  function LeadingSpace(s: string): (n: nat)
    ensures n <= |s|
    ensures forall i :: 0 <= i < n ==> IsSpace(s[i])
    ensures n == |s| || !IsSpace(s[n])
  {
    if s != [] && IsSpace(s[0]) then 1 + LeadingSpace(s[1..]) else 0
  }

  /** The length of the longest all-whitespace suffix. */
  function TrailingSpace(s: string): (n: nat)
    ensures n <= |s|
    ensures forall i :: |s| - n <= i < |s| ==> IsSpace(s[i])
    ensures n == |s| || !IsSpace(s[|s| - n - 1])
  {
    if s != [] && IsSpace(s[|s| - 1]) then 1 + TrailingSpace(s[..|s| - 1]) else 0
  }

  /** `str.lstrip()`: removes the longest all-whitespace prefix. */
  function TrimStart(s: string): (r: string)
    ensures |r| <= |s| && r == s[|s| - |r|..]
    ensures AllSpace(s[..|s| - |r|])
    ensures r == [] || !IsSpace(r[0])
  {
    var n := LeadingSpace(s);
    assert forall i :: 0 <= i < n ==> s[..n][i] == s[i];
    s[n..]
  }

  /** `str.rstrip()`: removes the longest all-whitespace suffix. */
  function TrimEnd(s: string): (r: string)
    ensures |r| <= |s| && r == s[..|r|]
    ensures AllSpace(s[|r|..])
    ensures r == [] || !IsSpace(r[|r| - 1])
  {
    var n := TrailingSpace(s);
    assert forall i :: |s| - n <= i < |s| ==> s[|s| - n..][i - (|s| - n)] == s[i];
    s[..|s| - n]
  }

  /** `str.strip()`: the input with a whitespace prefix and a whitespace suffix cut off,
      leaving no whitespace at either end. */
  function Strip(s: string): (r: string)
    ensures r == [] || (!IsSpace(r[0]) && !IsSpace(r[|r| - 1]))
    ensures forall c :: c in r ==> c in s
  {
    var t := TrimStart(s);
    assert forall c :: c in t ==> c in s;
    var r := TrimEnd(t);
    assert forall c :: c in r ==> c in t;
    assert r != [] ==> r[0] == t[0];
    r
  }

  /** `strip` cuts a whitespace prefix and a whitespace suffix off its input and keeps
      the rest as it is; with the first clause of `Strip`, this fixes the result. */
  lemma StripCuts(s: string)
    ensures var r := Strip(s);
            exists a :: 0 <= a && a + |r| <= |s| && r == s[a..a + |r|] && AllSpace(s[..a]) && AllSpace(s[a + |r|..])
  {
    var t := TrimStart(s);
    var r := TrimEnd(t);
    var a := |s| - |t|;
    assert r == s[a..a + |r|];
    assert s[a + |r|..] == t[|r|..];
  }

  /** Letters that Python's `str.lower` changes, restricted to ASCII and Latin-1. */
  predicate IsUpper(c: char) {
    ('A' <= c <= 'Z') || ('\U{C0}' <= c <= '\U{DE}' && c != '\U{D7}')
  }

  function LowerChar(c: char): char {
    if IsUpper(c) then (c as int + 32) as char else c
  }

  /** `str.lower()`. */
  function Lower(s: string): (r: string)
    ensures |r| == |s|
    ensures forall i :: 0 <= i < |s| ==> !IsUpper(r[i])
    ensures forall i :: 0 <= i < |s| && !IsUpper(s[i]) ==> r[i] == s[i]
    ensures forall i :: 0 <= i < |s| && IsUpper(s[i]) ==> r[i] as int == s[i] as int + 32
  {
    seq(|s|, i requires 0 <= i < |s| => LowerChar(s[i]))
  }

  /** `str.replace(a, b)` for single characters. */
  function ReplaceChar(s: string, a: char, b: char): (r: string)
    ensures |r| == |s|
    ensures forall i :: 0 <= i < |s| ==> r[i] == (if s[i] == a then b else s[i])
    ensures a != b ==> a !in r
  {
    seq(|s|, i requires 0 <= i < |s| => if s[i] == a then b else s[i])
  }

  /** The header name `data_validation` uses after its two renaming passes. */
  function NormalizeHeader(h: string): string {
    ReplaceChar(Lower(Without(Strip(h), [Bom])), ' ', '_')
  }

  lemma LowerCharFacts(c: char)
    ensures !IsUpper(LowerChar(c))
    ensures LowerChar(LowerChar(c)) == LowerChar(c)
    ensures IsSpace(LowerChar(c)) == IsSpace(c)
    ensures LowerChar(c) == ' ' <==> c == ' '
    ensures LowerChar(c) == Bom <==> c == Bom
  {
  }

  /** A normalised header has no space, no byte-order mark and no upper-case letter,
      and is never longer than the raw header. */
  lemma NormalizedForm(h: string)
    ensures ' ' !in NormalizeHeader(h)
    ensures Bom !in NormalizeHeader(h)
    ensures forall i :: 0 <= i < |NormalizeHeader(h)| ==> !IsUpper(NormalizeHeader(h)[i])
    ensures |NormalizeHeader(h)| <= |h|
  {
    var u := Without(Strip(h), [Bom]);
    var n := NormalizeHeader(h);
    forall i | 0 <= i < |n| ensures n[i] != ' ' && n[i] != Bom && !IsUpper(n[i]) {
      LowerCharFacts(u[i]);
      assert u[i] in u;
    }
    SubsequenceLength(u, Strip(h));
  }

  /** A string without surrounding whitespace is left alone by `strip`. */
  lemma StripTrimmed(n: string)
    requires n == [] || (!IsSpace(n[0]) && !IsSpace(n[|n| - 1]))
    ensures Strip(n) == n
  {
    if n != [] {
      assert LeadingSpace(n) == 0;
      assert TrimStart(n) == n[0..] == n;
      assert TrailingSpace(n) == 0;
      assert TrimEnd(n) == n[..|n|] == n;
    }
  }

  /** A renamed header neither starts nor ends with whitespace. */
  lemma NormalizedEnds(h: string)
    requires Bom !in h
    ensures var n := NormalizeHeader(h);
            n == [] || (!IsSpace(n[0]) && !IsSpace(n[|n| - 1]))
  {
    var s := Strip(h);
    WithoutDisjoint(s, [Bom]);
    var l := Lower(s);
    var n := ReplaceChar(l, ' ', '_');
    assert NormalizeHeader(h) == n;
    if s != [] {
      var k := |s| - 1;
      LowerCharFacts(s[0]);
      LowerCharFacts(s[k]);
      assert l[0] == LowerChar(s[0]) && l[k] == LowerChar(s[k]);
      assert !IsSpace(l[0]) && !IsSpace(l[k]);
      assert n[0] == (if l[0] == ' ' then '_' else l[0]);
      assert n[k] == (if l[k] == ' ' then '_' else l[k]);
    }
  }

  /** A header already in normal form is left as it is by the renaming. */
  lemma NormalFixed(n: string)
    requires n == [] || (!IsSpace(n[0]) && !IsSpace(n[|n| - 1]))
    requires ' ' !in n && Bom !in n
    requires forall i :: 0 <= i < |n| ==> !IsUpper(n[i])
    ensures NormalizeHeader(n) == n
  {
    StripTrimmed(n);
    WithoutDisjoint(n, [Bom]);
    LowerFixed(n);
    ReplaceFixed(n, ' ', '_');
  }

  lemma LowerFixed(n: string)
    requires forall i :: 0 <= i < |n| ==> !IsUpper(n[i])
    ensures Lower(n) == n
  {
  }

  lemma ReplaceFixed(n: string, a: char, b: char)
    requires a !in n
    ensures ReplaceChar(n, a, b) == n
  {
  }

  /** For a header without a byte-order mark, normalising twice is normalising once. */
  lemma NormalizeIdempotent(h: string)
    requires Bom !in h
    ensures NormalizeHeader(NormalizeHeader(h)) == NormalizeHeader(h)
  {
    NormalizedEnds(h);
    NormalizedForm(h);
    NormalFixed(NormalizeHeader(h));
  }

  /** `strip` removes exactly `a` leading and `b` trailing whitespace characters when
      those are whitespace and the characters next to them are not. */
  lemma StripExactly(s: string, a: nat, b: nat)
    requires a + b < |s|
    requires forall i :: 0 <= i < a ==> IsSpace(s[i])
    requires !IsSpace(s[a]) && !IsSpace(s[|s| - b - 1])
    requires forall i :: |s| - b <= i < |s| ==> IsSpace(s[i])
    ensures Strip(s) == s[a..|s| - b]
  {
    var n := LeadingSpace(s);
    assert n == a;
    var t := s[a..];
    assert TrimStart(s) == t;
    var m := TrailingSpace(t);
    assert m == b;
    assert TrimEnd(t) == s[a..|s| - b];
  }

  /** Letters and the byte-order mark are not whitespace. */
  lemma NotSpace(c: char)
    requires c == Bom || 'a' <= c <= 'z' || 'A' <= c <= 'Z'
    ensures !IsSpace(c)
  {
  }

  /** A header padded with whitespace on both sides is renamed as its core would be. */
  lemma RenamedPadded(p: string, t: string, q: string)
    requires AllSpace(p) && AllSpace(q)
    requires t != [] && !IsSpace(t[0]) && !IsSpace(t[|t| - 1]) && Bom !in t
    ensures NormalizeHeader(p + t + q) == ReplaceChar(Lower(t), ' ', '_')
  {
    var h := p + t + q;
    assert h[|p|] == t[0] && h[|h| - |q| - 1] == t[|t| - 1];
    StripExactly(h, |p|, |q|);
    assert h[|p|..|h| - |q|] == t;
    WithoutDisjoint(t, [Bom]);
  }

  /** A byte-order mark glued to the front of a header is dropped by the renaming. */
  lemma RenamedBom(t: string)
    requires t != [] && !IsSpace(t[|t| - 1]) && Bom !in t
    ensures NormalizeHeader([Bom] + t) == ReplaceChar(Lower(t), ' ', '_')
  {
    BomStripped(t);
  }

  lemma BomStripped(t: string)
    requires t != [] && !IsSpace(t[|t| - 1]) && Bom !in t
    ensures Without(Strip([Bom] + t), [Bom]) == t
  {
    var h := [Bom] + t;
    LeadingBomDropped(t);
    NotSpace(Bom);
    assert h[0] == Bom && h[|h| - 1] == t[|t| - 1];
    StripTrimmed(h);
  }

  /** The header "Adj Close" padded with a space on each side is recognised as `adj_close`. */
  lemma AdjCloseExample()
    ensures NormalizeHeader(" " + "Adj Close" + " ") == "adj_close"
  {
    NotSpace('A');
    NotSpace('e');
    RenamedPadded(" ", "Adj Close", " ");
    AdjCloseLowered();
  }

  lemma AdjCloseLowered()
    ensures ReplaceChar(Lower("Adj Close"), ' ', '_') == "adj_close"
  {
    assert Lower("Adj Close") == "adj close";
  }

  /** A byte-order mark glued to a header is dropped: BOM + "Open" is recognised as `open`. */
  lemma BomExample()
    ensures NormalizeHeader([Bom] + "Open") == "open"
  {
    NotSpace('n');
    RenamedBom("Open");
    OpenLowered();
  }

  /** The byte-order mark is not whitespace, so a space behind it survives the strip and
      becomes an underscore: BOM + " Open" becomes `_open`, which is not a required name. */
  lemma BomBeforeSpaceExample()
    ensures NormalizeHeader([Bom] + " Open") == "_open"
  {
    NotSpace('n');
    RenamedBom(" Open");
    SpacedOpenLowered();
  }

  /** Renaming twice is renaming once exactly when the renamed header has no whitespace
      at either end. */
  lemma IdempotentIff(h: string)
    ensures var n := NormalizeHeader(h);
            NormalizeHeader(n) == n <==> (n == [] || (!IsSpace(n[0]) && !IsSpace(n[|n| - 1])))
  {
    var n := NormalizeHeader(h);
    NormalizedForm(h);
    NormalizedEnds(n);
    if n == [] || (!IsSpace(n[0]) && !IsSpace(n[|n| - 1])) {
      NormalFixed(n);
    }
  }

  /** Renaming is not idempotent when a byte-order mark shields whitespace other than a
      space: BOM + "\tOpen" becomes "\topen", whose tab a second renaming strips. */
  lemma BomBeforeTabExample()
    ensures NormalizeHeader([Bom] + "\tOpen") == "\topen"
    ensures NormalizeHeader(NormalizeHeader([Bom] + "\tOpen")) != NormalizeHeader([Bom] + "\tOpen")
  {
    NotSpace('n');
    RenamedBom("\tOpen");
    TabbedOpenLowered();
    IdempotentIff([Bom] + "\tOpen");
    assert IsSpace("\topen"[0]);
  }

  /** A byte-order mark glued to the end of a header is dropped by the renaming. */
  lemma RenamedTrailingBom(t: string)
    requires t != [] && !IsSpace(t[0]) && Bom !in t
    ensures NormalizeHeader(t + [Bom]) == ReplaceChar(Lower(t), ' ', '_')
  {
    TrailingBomStripped(t);
  }

  lemma TrailingBomStripped(t: string)
    requires t != [] && !IsSpace(t[0]) && Bom !in t
    ensures Without(Strip(t + [Bom]), [Bom]) == t
  {
    var h := t + [Bom];
    TrailingBomDropped(t);
    NotSpace(Bom);
    assert h[0] == t[0] && h[|h| - 1] == Bom;
    StripTrimmed(h);
  }

  lemma TrailingBomDropped(t: string)
    requires Bom !in t
    ensures Without(t + [Bom], [Bom]) == t
  {
    WithoutAppend(t, [Bom], [Bom]);
    WithoutDisjoint(t, [Bom]);
    WithoutEmpty([Bom], [Bom]);
    assert t + [] == t;
  }

  /** The same at the other end: "Open\t" + BOM becomes "open\t", whose tab a second
      renaming strips. */
  lemma TabBeforeBomExample()
    ensures NormalizeHeader("Open\t" + [Bom]) == "open\t"
    ensures NormalizeHeader(NormalizeHeader("Open\t" + [Bom])) != NormalizeHeader("Open\t" + [Bom])
  {
    NotSpace('O');
    RenamedTrailingBom("Open\t");
    OpenTabLowered();
    IdempotentIff("Open\t" + [Bom]);
    assert IsSpace("open\t"[4]);
  }

  lemma OpenTabLowered()
    ensures ReplaceChar(Lower("Open\t"), ' ', '_') == "open\t"
  {
    assert Lower("Open\t") == "open\t";
  }

  lemma TabbedOpenLowered()
    ensures ReplaceChar(Lower("\tOpen"), ' ', '_') == "\topen"
  {
    assert Lower("\tOpen") == "\topen";
  }

  lemma OpenLowered()
    ensures ReplaceChar(Lower("Open"), ' ', '_') == "open"
  {
    assert Lower("Open") == "open";
  }

  lemma SpacedOpenLowered()
    ensures ReplaceChar(Lower(" Open"), ' ', '_') == "_open"
  {
    assert Lower(" Open") == " open";
  }

  lemma LeadingBomDropped(t: string)
    requires Bom !in t
    ensures Without([Bom] + t, [Bom]) == t
  {
    assert ([Bom] + t)[1..] == t;
    WithoutDisjoint(t, [Bom]);
  }
}
