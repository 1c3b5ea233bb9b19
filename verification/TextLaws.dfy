/** What the comparisons and searches of Texts.dfy mean, character by character. */
module TextLaws {
  import opened Texts

  /** The texts are the same up to position `k`; there one ends, or has the smaller character. */
  ghost predicate DiffersAt(a: string, b: string, k: nat) {
    && k <= |a| && k < |b| && a[..k] == b[..k]
    && (k < |a| ==> a[k] < b[k])
  }

  lemma FirstDifference(a: string, b: string, k: nat)
    requires DiffersAt(a, b, k)
    ensures k > 0 ==> a != "" && a[0] == b[0]
    ensures k == 0 ==> a == "" || a[0] < b[0]
  {
    if k > 0 {
      assert a[0] == a[..k][0] && b[0] == b[..k][0];
    }
  }

  /** Lexicographic order: at the first difference the smaller text ends, or has the smaller character. */
  lemma {:induction false} LessExactlyWhen(a: string, b: string)
    ensures Less(a, b) <==> exists k: nat :: DiffersAt(a, b, k)
  {
    if a != "" && b != "" && a[0] == b[0] {
      assert a == [a[0]] + a[1..] && b == [b[0]] + b[1..];
      LessExactlyWhen(a[1..], b[1..]);
      if k: nat :| DiffersAt(a[1..], b[1..], k) {
        assert a[..k + 1] == [a[0]] + a[1..][..k] && b[..k + 1] == [b[0]] + b[1..][..k];
        assert DiffersAt(a, b, k + 1);
      }
      if k: nat :| DiffersAt(a, b, k) {
        assert k > 0 && a[1..][..k - 1] == a[..k][1..] && b[1..][..k - 1] == b[..k][1..];
        assert DiffersAt(a[1..], b[1..], k - 1);
      }
    } else {
      if k: nat :| DiffersAt(a, b, k) {
        FirstDifference(a, b, k);
      }
      if Less(a, b) {
        assert DiffersAt(a, b, 0);
      }
    }
  }

  lemma LaterPart(s: string, u: string, part: string, v: string)
    requires s == u + part + v
    ensures HasPrefix(s, part) || (u != "" && s != "" && s[1..] == u[1..] + part + v)
  {
    if u == "" {
      assert s == part + v;
    } else {
      assert s[1..] == u[1..] + part + v;
    }
  }

  /** The part occurs somewhere. */
  lemma {:induction false} ContainsExactlyWhen(s: string, part: string)
    ensures Contains(s, part) <==> exists u: string, v: string :: s == u + part + v
  {
    if HasPrefix(s, part) {
      assert s == "" + part + s[|part|..];
    } else if s != "" {
      ContainsExactlyWhen(s[1..], part);
      if u: string, v: string :| s[1..] == u + part + v {
        assert s == ([s[0]] + u) + part + v;
      }
      if u: string, v: string :| s == u + part + v {
        LaterPart(s, u, part, v);
      }
    } else if u: string, v: string :| s == u + part + v {
      LaterPart(s, u, part, v);
    }
  }

  lemma PrefixExactlyWhen(s: string, part: string)
    ensures HasPrefix(s, part) <==> exists v: string :: s == part + v
  {
    if HasPrefix(s, part) {
      assert s == part + s[|part|..];
    }
  }

  lemma SuffixExactlyWhen(s: string, part: string)
    ensures HasSuffix(s, part) <==> exists u: string :: s == u + part
  {
    if HasSuffix(s, part) {
      assert s == s[..|s| - |part|] + part;
    }
  }

  /** The same character, or the same ASCII letter in the other case. */
  predicate SameLetter(a: char, b: char) {
    || a == b
    || ('A' <= a <= 'Z' && b as int == a as int + 32)
    || ('A' <= b <= 'Z' && a as int == b as int + 32)
  }

  /** Texts are equal but for the case of ASCII letters. */
  lemma EqualFoldExactlyWhen(a: string, b: string)
    ensures EqualFold(a, b) <==> |a| == |b| && forall i :: 0 <= i < |a| ==> SameLetter(a[i], b[i])
  {
    if EqualFold(a, b) {
      forall i | 0 <= i < |a|
        ensures SameLetter(a[i], b[i])
      {
        assert ToLower(a)[i] == ToLower(b)[i];
      }
    }
  }

  /******* Pieces between dots *******/

  /** The parts with the separator after each but the last. */
  function Separated(parts: seq<string>, sep: char): string {
    if parts == [] then "" else if |parts| == 1 then parts[0] else parts[0] + [sep] + Separated(parts[1..], sep)
  }

  ghost predicate AreParts(parts: seq<string>, sep: char) { forall i :: 0 <= i < |parts| ==> parts[i] != "" && sep !in parts[i] }

  lemma {:induction false} WordLengthOf(part: string, rest: string, sep: char)
    requires sep !in part && (rest == "" || rest[0] == sep)
    ensures WordLength(part + rest, sep) == |part|
  {
    if part == "" {
      assert part + rest == rest;
    } else {
      assert (part + rest)[1..] == part[1..] + rest;
      assert (part + rest)[0] == part[0] && part[0] in part;
      WordLengthOf(part[1..], rest, sep);
    }
  }

  lemma FieldsFirst(part: string, rest: string, sep: char)
    requires part != "" && sep !in part && (rest == "" || rest[0] == sep)
    ensures Fields(part + rest, sep) == [part] + Fields(rest, sep)
  {
    WordLengthOf(part, rest, sep);
    assert part[0] in part;
    assert (part + rest)[..|part|] == part && (part + rest)[|part|..] == rest;
  }

  /** Cutting undoes joining: the pieces come back, in order. */
  lemma {:induction false} FieldsInvertSeparated(parts: seq<string>, sep: char)
    requires AreParts(parts, sep)
    ensures Fields(Separated(parts, sep), sep) == parts
  {
    if |parts| == 1 {
      assert parts[0] + "" == parts[0];
      FieldsFirst(parts[0], "", sep);
    } else if parts != [] {
      var rest := [sep] + Separated(parts[1..], sep);
      FieldsInvertSeparated(parts[1..], sep);
      FieldsFirst(parts[0], rest, sep);
      assert rest[1..] == Separated(parts[1..], sep);
      assert Separated(parts, sep) == parts[0] + rest;
      assert parts == [parts[0]] + parts[1..];
    }
  }

  /******* Trimming *******/

  /** The text without the spaces around it. */
  ghost predicate IsTrimOf(s: string, t: string) {
    && (t != "" ==> !IsSpace(t[0]) && !IsSpace(t[|t| - 1]))
    && exists left: string, right: string :: s == left + t + right && IsBlank(left) && IsBlank(right)
  }

  lemma {:induction false} TrimLeftOf(left: string, t: string)
    requires IsBlank(left) && (t != "" ==> !IsSpace(t[0]))
    ensures TrimLeft(left + t) == t
  {
    if left == "" {
      assert left + t == t;
    } else {
      assert (left + t)[1..] == left[1..] + t;
      TrimLeftOf(left[1..], t);
    }
  }

  lemma {:induction false} TrimRightOf(t: string, right: string)
    requires IsBlank(right) && (t != "" ==> !IsSpace(t[|t| - 1]))
    ensures TrimRight(t + right) == t
  {
    if right == "" {
      assert t + right == t;
    } else {
      var n := |right| - 1;
      assert (t + right)[..|t + right| - 1] == t + right[..n];
      TrimRightOf(t, right[..n]);
    }
  }

  lemma BlanksTrimToNothing(left: string, right: string)
    requires IsBlank(left) && IsBlank(right)
    ensures TrimSpace(left + right) == ""
  {
    assert IsBlank(left + right);
    BlankTrimsToNothing(left + right);
  }

  lemma TrimExactlyWhen(s: string, t: string)
    ensures TrimSpace(s) == t <==> IsTrimOf(s, t)
  {
    var l, trimmed, r := TrimSpaceLeaves(s);
    if IsTrimOf(s, t) {
      var left: string, right: string :| s == left + t + right && IsBlank(left) && IsBlank(right);
      if t == "" {
        assert left + t + right == left + right;
        BlanksTrimToNothing(left, right);
      } else {
        assert left + t + right == left + (t + right);
        TrimLeftOf(left, t + right);
        TrimRightOf(t, right);
      }
    }
  }

  /** The spaces among the first 256 code points. */
  lemma SpaceExactlyWhen(c: char)
    ensures IsSpace(c) <==> 9 <= c as int <= 13 || c as int == 32 || c as int == 133 || c as int == 160
  {
  }
}
