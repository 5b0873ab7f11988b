/** The condensed status string: runs of equal status characters, each printed once with its length. */
module Condensed {
  import opened Options

  const NUL := '\0'

  predicate IsDigit(c: char) { '0' <= c <= '9' }

  function DigitChar(k: nat): (c: char)
    requires k < 10
    ensures IsDigit(c) && DigitValue(c) == k
  {
    ('0' as int + k) as char
  }

  function DigitValue(c: char): nat
    requires IsDigit(c)
  {
    c as int - '0' as int
  }

  /** %u. */
  function Digits(n: nat): (r: string)
    ensures |r| >= 1 && forall i :: 0 <= i < |r| ==> IsDigit(r[i])
  {
    if n < 10 then [DigitChar(n)] else Digits(n / 10) + [DigitChar(n % 10)]
  }

  function Value(digits: string): nat
    requires forall i :: 0 <= i < |digits| ==> IsDigit(digits[i])
  {
    if digits == "" then 0 else 10 * Value(digits[..|digits| - 1]) + DigitValue(digits[|digits| - 1])
  }

  lemma {:induction false} ValueDigits(n: nat)
    ensures Value(Digits(n)) == n
  {
    hide IsDigit, DigitChar, DigitValue;
    var d := Digits(n);
    if n < 10 {
      assert d[..|d| - 1] == "";
    } else {
      ValueDigits(n / 10);
      assert d[..|d| - 1] == Digits(n / 10);
    }
  }

  lemma {:induction false} FewDigits(n: nat)
    requires n >= 1
    ensures |Digits(n)| <= n
  {
    if n >= 10 {
      FewDigits(n / 10);
    }
  }

  /** The length of the run of equal characters a string starts with. */
  function RunLen(s: string): (n: nat)
    requires s != ""
    ensures 1 <= n <= |s|
    ensures forall i :: 0 <= i < n ==> s[i] == s[0]
    ensures n < |s| ==> s[n] != s[0]
  {
    if |s| == 1 || s[1] != s[0] then 1 else 1 + RunLen(s[1..])
  }

  datatype Group = Group(c: char, n: nat)

  function Groups(s: string): seq<Group> {
    if s == "" then [] else [Group(s[0], RunLen(s))] + Groups(s[RunLen(s)..])
  }

  function Repeat(c: char, n: nat): string {
    seq(n, _ => c)
  }

  function Expand(groups: seq<Group>): string {
    if groups == [] then "" else Repeat(groups[0].c, groups[0].n) + Expand(groups[1..])
  }

  /** Groups are not empty, and neighbours carry different characters. */
  predicate Canonical(groups: seq<Group>) {
    && (forall i :: 0 <= i < |groups| ==> groups[i].n >= 1)
    && (forall i :: 0 <= i < |groups| - 1 ==> groups[i].c != groups[i + 1].c)
  }

  lemma {:induction false} GroupsCanonical(s: string)
    ensures Canonical(Groups(s))
    ensures s != "" ==> Groups(s) != [] && Groups(s)[0].c == s[0]
  {
    if s != "" {
      var rest := s[RunLen(s)..];
      GroupsCanonical(rest);
      var g := Groups(s);
      forall i | 0 <= i < |g| - 1 ensures g[i].c != g[i + 1].c {
        assert i > 0 ==> g[i] == Groups(rest)[i - 1] && g[i + 1] == Groups(rest)[i];
      }
    }
  }

  lemma {:induction false} ExpandGroups(s: string)
    ensures Expand(Groups(s)) == s
  {
    if s != "" {
      var n := RunLen(s);
      ExpandGroups(s[n..]);
      assert Groups(s)[1..] == Groups(s[n..]);
      assert Repeat(s[0], n) == s[..n];
    }
  }

  lemma RunLenIs(s: string, n: nat)
    requires 1 <= n <= |s| && (forall i :: 0 <= i < n ==> s[i] == s[0]) && (n < |s| ==> s[n] != s[0])
    ensures RunLen(s) == n
  {
  }

  lemma CanonicalRest(groups: seq<Group>)
    requires Canonical(groups) && groups != []
    ensures Canonical(groups[1..])
  {
    var rest := groups[1..];
    forall i | 0 <= i < |rest| - 1 ensures rest[i].c != rest[i + 1].c {
      assert groups[i + 1].c != groups[i + 1 + 1].c;
    }
  }

  /** There is no other way to divide a string into canonical groups. */
  lemma {:induction false} GroupsUnique(groups: seq<Group>)
    requires Canonical(groups)
    ensures Groups(Expand(groups)) == groups
  {
    if groups != [] {
      var g, rest, s := groups[0], groups[1..], Expand(groups);
      CanonicalRest(groups);
      GroupsUnique(rest);
      assert s[g.n..] == Expand(rest);
      if rest != [] {
        assert Expand(rest)[0] == rest[0].c;
        assert s[g.n] == groups[0 + 1].c;
      }
      RunLenIs(s, g.n);
    }
  }

  /** The text of one group, with the comma that separates it from the next. */
  function Text(n: nat): string {
    "(" + Digits(n) + "),"
  }

  function Lines(groups: seq<Group>): string {
    if groups == [] then "" else [groups[0].c] + Text(groups[0].n) + Lines(groups[1..])
  }

  /** The condensed string: all groups, without the last comma. */
  function Encode(s: string): string {
    var all := Lines(Groups(s));
    if all == "" then "" else all[..|all| - 1]
  }

  function DigitCount(s: string): (n: nat)
    ensures n <= |s| && (forall i :: 0 <= i < n ==> IsDigit(s[i])) && (n < |s| ==> !IsDigit(s[n]))
  {
    if s == "" || !IsDigit(s[0]) then 0 else 1 + DigitCount(s[1..])
  }

  /** Reads one group ended by a comma. */
  function ReadGroup(s: string): (r: Option<Group>)
    ensures r.Some? ==> |s| >= 2 && DigitCount(s[2..]) + 4 <= |s|
  {
    if |s| < 2 || s[1] != '(' then None
    else
      var d := DigitCount(s[2..]);
      if d == 0 || |s| < d + 4 || s[2 + d] != ')' || s[3 + d] != ',' then None
      else Some(Group(s[0], Value(s[2..2 + d])))
  }

  function DecodeLines(s: string): Option<seq<Group>>
    decreases |s|
  {
    if s == "" then Some([])
    else
      var first := ReadGroup(s);
      if first.None? then None
      else
        var rest := DecodeLines(s[DigitCount(s[2..]) + 4..]);
        if rest.None? then None else Some([first.value] + rest.value)
  }

  function Decode(s: string): Option<string> {
    if s == "" then Some("")
    else
      var groups := DecodeLines(s + ",");
      if groups.None? then None else Some(Expand(groups.value))
  }

  lemma DigitCountIs(d: string, rest: string)
    requires (forall i :: 0 <= i < |d| ==> IsDigit(d[i])) && rest != "" && !IsDigit(rest[0])
    ensures DigitCount(d + rest) == |d|
  {
    var s := d + rest;
    assert forall i :: 0 <= i < |d| ==> s[i] == d[i];
    assert s[|d|] == rest[0];
  }

  lemma Shape(c: char, d: string, more: string, s: string)
    requires s == [c] + ("(" + d + "),") + more
    ensures |s| == |d| + 4 + |more| && s[0] == c && s[1] == '(' && s[2..] == d + (")," + more)
    ensures s[2..2 + |d|] == d && s[2 + |d|] == ')' && s[3 + |d|] == ',' && s[|d| + 4..] == more
  {
  }

  /** Reading a printed group gives it back, and what follows it is read next. */
  lemma DecodeOne(g: Group, more: string)
    ensures var rest := DecodeLines(more);
            DecodeLines([g.c] + Text(g.n) + more) == if rest.None? then None else Some([g] + rest.value)
  {
    hide Digits, Value, DigitCount;
    var d := Digits(g.n);
    var s := [g.c] + Text(g.n) + more;
    Shape(g.c, d, more, s);
    DigitCountIs(d, ")," + more);
    ValueDigits(g.n);
    assert ReadGroup(s) == Some(g);
  }

  lemma {:induction false} DecodeOfLines(groups: seq<Group>)
    ensures DecodeLines(Lines(groups)) == Some(groups)
  {
    hide Text, DecodeLines;
    if groups == [] {
      assert DecodeLines("") == Some([]) by { DecodeNothing(); }
    } else {
      DecodeOne(groups[0], Lines(groups[1..]));
      DecodeOfLines(groups[1..]);
      assert [groups[0]] + groups[1..] == groups;
    }
  }

  lemma DecodeNothing()
    ensures DecodeLines("") == Some([])
  {
  }

  lemma EncodedLines(s: string)
    requires s != ""
    ensures Encode(s) != "" && Encode(s) + "," == Lines(Groups(s))
  {
    LinesEnd(Groups(s));
  }

  lemma {:induction false} LinesEnd(groups: seq<Group>)
    requires groups != []
    ensures |Lines(groups)| >= 2 && Lines(groups)[|Lines(groups)| - 1] == ','
  {
    if |groups| > 1 {
      LinesEnd(groups[1..]);
    }
  }

  /** Decoding gives back the status string, whatever characters it holds. */
  lemma RoundTrip(s: string)
    ensures Decode(Encode(s)) == Some(s)
  {
    if s != "" {
      EncodedLines(s);
      DecodeOfLines(Groups(s));
      ExpandGroups(s);
    }
  }

  lemma Injective(s: string, t: string)
    requires Encode(s) == Encode(t)
    ensures s == t
  {
    RoundTrip(s);
    RoundTrip(t);
  }

  /** Every canonical list of groups is the division of exactly the string whose condensed form spells it. */
  lemma OneSpelling(groups: seq<Group>, s: string)
    requires Canonical(groups) && groups != [] && s != ""
    ensures Lines(groups) == Encode(s) + "," <==> s == Expand(groups)
  {
    EncodedLines(s);
    GroupsUnique(groups);
    ExpandGroups(s);
    DecodeOfLines(groups);
    DecodeOfLines(Groups(s));
  }

  /** `s` is the NUL-terminated string at the start of a buffer. */
  predicate CString(buffer: seq<char>, s: string) {
    |s| < |buffer| && buffer[..|s|] == s && buffer[|s|] == NUL && NUL !in s
  }

  /** A group of `n` characters never prints longer than five characters for each of them. */
  lemma TextFits(n: nat)
    requires n >= 1
    ensures 1 + |Text(n)| <= 5 * n
  {
    FewDigits(n);
  }

  lemma LinesFrom(s: string, r: nat, n: nat)
    requires r < r + n <= |s| && (forall i :: r <= i < r + n ==> s[i] == s[r])
    requires r + n < |s| ==> s[r + n] != s[r]
    ensures Lines(Groups(s[r..])) == [s[r]] + Text(n) + Lines(Groups(s[r + n..]))
  {
    hide Text;
    var t := s[r..];
    RunLenIs(t, n);
    assert t[n..] == s[r + n..];
    assert Groups(t)[1..] == Groups(t[n..]);
  }

  /** sprintf of one group: the text and its terminator; returns where the text ends. */
  method PrintGroup(dst: array<char>, w: nat, n: nat) returns (end: nat)
    requires w + |Text(n)| < dst.Length
    modifies dst
    ensures end == w + |Text(n)| && dst[..end] == old(dst[..w]) + Text(n)
  {
    hide Digits;
    var text := Text(n);
    forall i | 0 <= i < |text| {
      dst[w + i] := text[i];
    }
    end := w + |text|;
    dst[end] := NUL;
    assert dst[w..end] == text;
  }

  /** Skips the rest of the run that starts at `r`. */
  method SkipRun(src: array<char>, ghost s: string, r: nat) returns (next: nat, nr: nat)
    requires CString(src[..], s) && r < |s|
    ensures nr >= 1 && next == r + nr <= |s| && forall i :: r <= i < next ==> s[i] == s[r]
    ensures next < |s| ==> s[next] != s[r]
  {
    next, nr := r + 1, 1;
    while src[next - 1] == src[next]
      invariant nr >= 1 && next == r + nr <= |s|
      invariant forall i :: r <= i < next ==> s[i] == s[r]
      decreases |s| - next
    {
      assert src[..][next - 1] == s[next - 1];
      next, nr := next + 1, nr + 1;
    }
  }

  /** update_condensed_str: five characters for each status, and a terminator, are always room enough. */
  method UpdateCondensed(src: array<char>, ghost s: string, dst: array<char>)
    requires src != dst && CString(src[..], s) && dst.Length >= 5 * |s| + 1
    modifies dst
    ensures CString(dst[..], Encode(s))
  {
    hide Text, Groups, Lines;
    NothingEncoded();
    var r, w := 0, 0;
    assert s[0..] == s;
    if src[r] != NUL {
      while src[r] != NUL
        invariant 0 <= r <= |s| && 0 <= w <= 5 * r && CString(src[..], s)
        invariant dst[..w] + Lines(Groups(s[r..])) == Lines(Groups(s))
        decreases |s| - r
      {
        ghost var done := dst[..w];
        dst[w] := src[r];
        assert dst[..w + 1] == done + [s[r]];
        var next, nr := SkipRun(src, s, r);
        LinesFrom(s, r, nr);
        TextFits(nr);
        w := PrintGroup(dst, w + 1, nr);
        r := next;
      }
      assert s[r..] == "";
      EncodedLines(s);
      EncodedClean(s);
      w := w - 1;
      assert dst[..w] == Encode(s);
    }
    dst[w] := NUL;
    assert dst[..w] == Encode(s);
  }

  lemma NothingEncoded()
    ensures Encode("") == "" && Lines(Groups("")) == ""
  {
  }

  lemma EncodedClean(s: string)
    requires NUL !in s && s != ""
    ensures NUL !in Encode(s)
  {
    LinesClean(s);
    EncodedLines(s);
  }

  lemma {:induction false} LinesClean(s: string)
    requires NUL !in s
    ensures NUL !in Lines(Groups(s))
  {
    if s != "" {
      var n := RunLen(s);
      LinesClean(s[n..]);
      assert Groups(s)[1..] == Groups(s[n..]);
      assert NUL !in Digits(n);
    }
  }
}
