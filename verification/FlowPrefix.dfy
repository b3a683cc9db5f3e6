/** The NFLOG prefix that tags a logged drop, and the receiver's parser for it. */
module FlowPrefix {
  import opened Common
  import opened Text
  import opened Address
  import opened Policy

  /** Longest prefix, in bytes, that the compiler aims for. */
  const MAX_PREFIX_LEN := 120

  const HEAD := "suho c="

  function DirText(dir: Direction): (s: string)
    ensures ';' !in s
  {
    if dir == Egress then "egress" else "ingress"
  }

  /** Bytes a character takes in UTF-8 (section 3 of RFC 3629). */
  function CharBytes(c: char): (n: nat)
    ensures 1 <= n <= 4 && (n == 1 <==> c as int < 0x80)
  {
    if c as int < 0x80 then 1 else if c as int < 0x800 then 2 else if c as int < 0x1_0000 then 3 else 4
  }

  function ByteLen(s: string): (n: nat)
    ensures n >= |s|
  {
    if s == "" then 0 else ByteLen(s[..|s| - 1]) + CharBytes(s[|s| - 1])
  }

  /** A character in UTF-8 (section 3 of RFC 3629): the lead byte tells how many bytes follow, and each
      of those carries six bits. */
  function Utf8(c: char): (r: seq<byte>)
    ensures |r| == CharBytes(c)
    ensures |r| == if r[0] < 0x80 then 1 else if r[0] < 0xE0 then 2 else if r[0] < 0xF0 then 3 else 4
  {
    var n := c as int;
    if n < 0x80 then [n]
    else if n < 0x800 then [0xC0 + n / 0x40, 0x80 + n % 0x40]
    else if n < 0x1_0000 then [0xE0 + n / 0x1000, 0x80 + n / 0x40 % 0x40, 0x80 + n % 0x40]
    else [0xF0 + n / 0x4_0000, 0x80 + n / 0x1000 % 0x40, 0x80 + n / 0x40 % 0x40, 0x80 + n % 0x40]
  }

  function Encoded(s: string): seq<byte> {
    if s == "" then [] else Encoded(s[..|s| - 1]) + Utf8(s[|s| - 1])
  }

  /** The length that is budgeted is that of the encoded text. */
  lemma {:induction false} EncodedLength(s: string)
    ensures |Encoded(s)| == ByteLen(s)
  {
    if s == "" {
    } else {
      EncodedLength(s[..|s| - 1]);
    }
  }

  predicate IsAscii(s: string) {
    forall i | 0 <= i < |s| :: s[i] as int < 0x80
  }

  function Suffix(dir: Direction): string {
    ";d=" + DirText(dir) + ";v=drop"
  }

  predicate Fits(name: string, dir: Direction) {
    ByteLen(HEAD + name + Suffix(dir)) <= MAX_PREFIX_LEN
  }

  /** Characters left for the name once the fixed parts are paid for. */
  function Budget(dir: Direction): nat {
    MAX_PREFIX_LEN - (|Suffix(dir)| + |HEAD|)
  }

  /** The name as the prefix carries it: whole if it fits, else its first characters. */
  function Shown(name: string, dir: Direction): string {
    if Fits(name, dir) || |name| <= Budget(dir) then name else name[..Budget(dir)]
  }

  function FlowlogPrefix(name: string, enabled: bool, dir: Direction): Option<string> {
    if !enabled then None
    else if Fits(name, dir) then Some(HEAD + name + Suffix(dir))
    else
      var budget := Budget(dir);
      var truncated := if |name| <= budget then name else name[..budget];
      Some(HEAD + truncated + Suffix(dir))
  }

  // ----- the length bound -----

  lemma {:induction false} ByteLenAppend(a: string, b: string)
    ensures ByteLen(a + b) == ByteLen(a) + ByteLen(b)
  {
    if b == "" {
      assert a + b == a;
    } else {
      ByteLenAppend(a, b[..|b| - 1]);
      assert (a + b)[..|a + b| - 1] == a + b[..|b| - 1];
    }
  }

  lemma {:induction false} AsciiIsOneBytePerChar(s: string)
    ensures IsAscii(s) <==> ByteLen(s) == |s|
  {
    if s == "" {
    } else {
      var init, last := s[..|s| - 1], s[|s| - 1];
      AsciiIsOneBytePerChar(init);
      assert IsAscii(init) && last as int < 0x80 ==> forall i | 0 <= i < |s| :: i < |s| - 1 ==> s[i] == init[i];
    }
  }

  lemma FixedPartsAscii(dir: Direction)
    ensures ByteLen(HEAD) == |HEAD| && ByteLen(Suffix(dir)) == |Suffix(dir)|
  {
    AsciiIsOneBytePerChar(HEAD);
    AsciiIsOneBytePerChar(Suffix(dir));
  }

  /** The bound the truncation is for holds exactly when the name fits anyway or the
      characters kept are ASCII: the budget counts characters, the limit counts bytes. */
  lemma PrefixBound(name: string, dir: Direction)
    ensures |Encoded(FlowlogPrefix(name, true, dir).value)| <= 120
       <==> Fits(name, dir) || IsAscii(Shown(name, dir))
  {
    var shown := Shown(name, dir);
    assert FlowlogPrefix(name, true, dir) == Some(HEAD + shown + Suffix(dir));
    EncodedLength(HEAD + shown + Suffix(dir));
    ByteLenAppend(HEAD + shown, Suffix(dir));
    ByteLenAppend(HEAD, shown);
    FixedPartsAscii(dir);
    AsciiIsOneBytePerChar(shown);
    if !Fits(name, dir) && !IsAscii(shown) && |name| > Budget(dir) {
      assert |shown| == Budget(dir);
    }
  }

  /** The bound does fail: a name of 97 two-byte letters is cut to a prefix of more than 120 bytes. */
  lemma PrefixBoundFails()
    ensures var name := seq(97, _ => 'é');
            |Encoded(FlowlogPrefix(name, true, Egress).value)| > 120
  {
    var name := seq(97, _ => 'é');
    assert name[0] == 'é';
    ByteLenAppend(HEAD + name, Suffix(Egress));
    ByteLenAppend(HEAD, name);
    FixedPartsAscii(Egress);
    AsciiIsOneBytePerChar(name);
    PrefixBound(name, Egress);
  }

  // ----- reading it back -----

  datatype Fields = Fields(container: string, dir: string, verdict: string)

  /** What one `;`-separated part does to the fields read so far. */
  function Absorb(f: Fields, part: string): Fields {
    var p := TrimStartMatches(part, "suho ");
    if "c=" <= p then f.(container := p[2..])
    else if "d=" <= p then f.(dir := p[2..])
    else if "v=" <= p then f.(verdict := p[2..])
    else f
  }

  function AbsorbAll(parts: seq<string>): Fields {
    if parts == [] then Fields("-", "-", "-") else Absorb(AbsorbAll(parts[..|parts| - 1]), parts[|parts| - 1])
  }

  method ParsePrefix(prefix: string) returns (f: Fields)
    ensures f == AbsorbAll(Split(prefix, ';'))
  {
    var container, dir, verdict := "-", "-", "-";
    var parts := Split(prefix, ';');
    for i := 0 to |parts|
      invariant Fields(container, dir, verdict) == AbsorbAll(parts[..i])
    {
      assert parts[..i + 1][..i] == parts[..i];
      var part := TrimStartMatches(parts[i], "suho ");
      if "c=" <= part {
        container := part[2..];
      } else if "d=" <= part {
        dir := part[2..];
      } else if "v=" <= part {
        verdict := part[2..];
      }
    }
    assert parts[..|parts|] == parts;
    f := Fields(container, dir, verdict);
  }

  lemma TrimmedSuffix(s: string, pat: string, c: char)
    requires pat != "" && c !in s
    ensures c !in TrimStartMatches(s, pat)
    decreases |s|
  {
    if pat <= s { TrimmedSuffix(s[|pat|..], pat, c); }
  }

  /** No field can hold the separator. */
  lemma {:induction false} FieldsHaveNoSeparator(parts: seq<string>)
    requires forall p :: p in parts ==> ';' !in p
    ensures ';' !in AbsorbAll(parts).container
  {
    if parts == [] {
    } else {
      FieldsHaveNoSeparator(parts[..|parts| - 1]);
      TrimmedSuffix(parts[|parts| - 1], "suho ", ';');
    }
  }

  lemma NoTrim(s: string)
    requires s != "" && s[0] != 's'
    ensures TrimStartMatches(s, "suho ") == s
  {}

  lemma AppendedParts(parts: seq<string>, dir: Direction)
    ensures AbsorbAll(parts + ["d=" + DirText(dir), "v=drop"])
         == Fields(AbsorbAll(parts).container, DirText(dir), "drop")
  {
    var d, v := "d=" + DirText(dir), "v=drop";
    var all := parts + [d, v];
    assert all[..|all| - 1] == parts + [d];
    assert (parts + [d])[..|parts|] == parts;
    NoTrim(d);
    NoTrim(v);
    assert d[2..] == DirText(dir) && v[2..] == "drop";
  }

  lemma PrefixShows(name: string, dir: Direction)
    ensures FlowlogPrefix(name, true, dir) == Some(HEAD + Shown(name, dir) + Suffix(dir))
  {}

  /** For every container name: the direction and verdict come back, and the name shown
      comes back exactly when it holds no separator. */
  lemma PrefixRoundTrip(name: string, dir: Direction)
    ensures var f := AbsorbAll(Split(FlowlogPrefix(name, true, dir).value, ';'));
            && f.dir == (if dir == Egress then "egress" else "ingress")
            && f.verdict == "drop"
            && (f.container == Shown(name, dir) <==> ';' !in Shown(name, dir))
  {
    PrefixShows(name, dir);
    ShownParses(Shown(name, dir), dir);
  }

  lemma ShownParses(shown: string, dir: Direction)
    ensures var f := AbsorbAll(Split(HEAD + shown + Suffix(dir), ';'));
            && f.dir == DirText(dir)
            && f.verdict == "drop"
            && (f.container == shown <==> ';' !in shown)
  {
    hide Split, AbsorbAll, Suffix;
    PrefixParts(shown, dir);
    var parts := Split(HEAD + shown, ';');
    AppendedParts(parts, dir);
    FieldsHaveNoSeparator(parts);
    if ';' !in shown {
      SplitNone(HEAD + shown, ';');
      HeadParses(shown);
    }
  }

  lemma PrefixParts(shown: string, dir: Direction)
    ensures Split(HEAD + shown + Suffix(dir), ';') == Split(HEAD + shown, ';') + ["d=" + DirText(dir), "v=drop"]
  {
    var head, d := HEAD + shown, "d=" + DirText(dir);
    assert head + Suffix(dir) == (head + [';'] + d) + [';'] + "v=drop";
    SplitLast(head + [';'] + d, ';', "v=drop");
    SplitLast(head, ';', d);
  }

  lemma HeadParses(shown: string)
    ensures AbsorbAll([HEAD + shown]).container == shown
  {
    var s := HEAD + shown;
    assert "suho " <= s && s[5..] == "c=" + shown;
    NoTrim("c=" + shown);
    assert [s][..0] == [];
    assert ("c=" + shown)[2..] == shown;
  }
}
