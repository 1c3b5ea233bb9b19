/** The parts of Go's `strings` package that the modelled code calls. */
module Texts {

  /** `strings.Compare`: lexicographic order of the characters. */
  function Compare(a: string, b: string): int {
    if a == b then 0
    else if a == "" then -1
    else if b == "" then 1
    else if a[0] < b[0] then -1
    else if b[0] < a[0] then 1
    else Compare(a[1..], b[1..])
  }

  predicate Less(a: string, b: string) { Compare(a, b) < 0 }

  lemma {:induction false} CompareIsAntisymmetric(a: string, b: string)
    ensures Compare(a, b) == -Compare(b, a)
    ensures Compare(a, b) == 0 <==> a == b
  {
    if a != b && a != "" && b != "" && a[0] == b[0] {
      assert a == [a[0]] + a[1..] && b == [b[0]] + b[1..];
      CompareIsAntisymmetric(a[1..], b[1..]);
    }
  }

  lemma {:induction false} LessIsTransitive(a: string, b: string, c: string)
    requires Compare(a, b) <= 0 && Compare(b, c) <= 0
    ensures Compare(a, c) <= 0
    ensures Compare(a, b) < 0 || Compare(b, c) < 0 ==> Compare(a, c) < 0
  {
    CompareIsAntisymmetric(a, b);
    CompareIsAntisymmetric(b, c);
    if a != b && b != c && a != "" && b != "" && c != "" && a[0] == b[0] == c[0] {
      LessIsTransitive(a[1..], b[1..], c[1..]);
    }
  }

  predicate HasPrefix(s: string, prefix: string) { prefix <= s }

  predicate HasSuffix(s: string, suffix: string) {
    |suffix| <= |s| && s[|s| - |suffix|..] == suffix
  }

  predicate Contains(s: string, part: string) {
    HasPrefix(s, part) || (s != "" && Contains(s[1..], part))
  }

  /** `strings.ReplaceAll` for a non-empty `old`. */
  function ReplaceAll(s: string, old_: string, new_: string): string
    requires old_ != ""
    decreases |s|
  {
    if s == "" then ""
    else if HasPrefix(s, old_) then new_ + ReplaceAll(s[|old_|..], old_, new_)
    else [s[0]] + ReplaceAll(s[1..], old_, new_)
  }

  /** The non-empty pieces between occurrences of `sep`. */
  function Fields(s: string, sep: char): (pieces: seq<string>)
    ensures forall piece :: piece in pieces ==> piece != "" && sep !in piece
    decreases |s|
  {
    if s == "" then []
    else if s[0] == sep then Fields(s[1..], sep)
    else
      var n := WordLength(s, sep);
      [s[..n]] + Fields(s[n..], sep)
  }

  function WordLength(s: string, sep: char): (n: nat)
    ensures n <= |s| && sep !in s[..n] && (n < |s| ==> s[n] == sep)
    ensures s != "" && s[0] != sep ==> 0 < n
  {
    if s == "" || s[0] == sep then 0 else 1 + WordLength(s[1..], sep)
  }

  lemma {:induction false} ReplaceNothing(s: string, old_: string, new_: string)
    requires old_ != "" && old_[0] !in s
    ensures ReplaceAll(s, old_, new_) == s
  {
    if s != "" {
      assert s[0] in s;
      assert s == [s[0]] + s[1..];
      ReplaceNothing(s[1..], old_, new_);
    }
  }

  function LowerChar(c: char): char {
    if 'A' <= c <= 'Z' then (c as int + 32) as char else c
  }

  /** `strings.ToLower` and `strings.EqualFold` on ASCII letters. */
  function ToLower(s: string): (lower: string)
    ensures |lower| == |s|
  {
    seq(|s|, i requires 0 <= i < |s| => LowerChar(s[i]))
  }

  predicate EqualFold(a: string, b: string) { ToLower(a) == ToLower(b) }

  predicate IsSpace(c: char) { c in " \t\n\r" || c as int in {11, 12, 0x85, 0xA0} }

  function TrimLeft(s: string): string {
    if s != "" && IsSpace(s[0]) then TrimLeft(s[1..]) else s
  }

  function TrimRight(s: string): string {
    if s != "" && IsSpace(s[|s| - 1]) then TrimRight(s[..|s| - 1]) else s
  }

  function TrimSpace(s: string): string { TrimRight(TrimLeft(s)) }

  /** Nothing but spaces. */
  predicate IsBlank(s: string) { forall i :: 0 <= i < |s| ==> IsSpace(s[i]) }

  lemma {:induction false} TrimLeftLeaves(s: string) returns (left: string, t: string)
    ensures t == TrimLeft(s) && s == left + t && IsBlank(left)
    ensures t != "" ==> !IsSpace(t[0])
  {
    if s != "" && IsSpace(s[0]) {
      left, t := TrimLeftLeaves(s[1..]);
      left := [s[0]] + left;
    } else {
      left, t := "", s;
    }
  }

  lemma {:induction false} TrimRightLeaves(s: string) returns (t: string, right: string)
    ensures t == TrimRight(s) && s == t + right && IsBlank(right)
    ensures t != "" ==> !IsSpace(t[|t| - 1])
  {
    if s != "" && IsSpace(s[|s| - 1]) {
      t, right := TrimRightLeaves(s[..|s| - 1]);
      right := right + [s[|s| - 1]];
    } else {
      t, right := s, "";
    }
  }

  /** What `TrimSpace` takes away. */
  lemma TrimSpaceLeaves(s: string) returns (left: string, t: string, right: string)
    ensures t == TrimSpace(s) && s == left + t + right && IsBlank(left) && IsBlank(right)
    ensures t != "" ==> !IsSpace(t[0]) && !IsSpace(t[|t| - 1])
  {
    var rest;
    left, rest := TrimLeftLeaves(s);
    t, right := TrimRightLeaves(rest);
    assert left + (t + right) == left + t + right;
    if t != "" {
      assert rest[0] == t[0];
    }
  }

  lemma BlankTrimsToNothing(s: string)
    ensures TrimSpace(s) == "" <==> IsBlank(s)
  {
    var left, t, right := TrimSpaceLeaves(s);
    if t != "" {
      assert s[|left|] == t[0];
    } else {
      assert s == left + right;
    }
  }
}
