/**
 The names of aggregate outputs: `sanitizeAlias` of internal/dsl/parser.go.  The reference is the
 field cut into its words, the longest runs of letters and digits: a name is those words in order
 with one underscore between neighbours, whatever stood around them.
*/
module Aliases {
  import opened Expressions
  import opened Sequences
  import Segmentation

  /** Letters and digits stay; a run of anything else becomes one underscore. */
  function Squeeze(field: string, lastUnderscore: bool): string {
    if field == "" then ""
    else if IsAlphanumeric(field[0]) then [field[0]] + Squeeze(field[1..], false)
    else if lastUnderscore then Squeeze(field[1..], true)
    else "_" + Squeeze(field[1..], true)
  }

  function TrimUnderscores(s: string): string {
    if s != "" && s[0] == '_' then TrimUnderscores(s[1..])
    else if s != "" && s[|s| - 1] == '_' then TrimUnderscores(s[..|s| - 1])
    else s
  }

  function SanitizeAlias(field: string): string { TrimUnderscores(Squeeze(field, false)) }

  method BuildAlias(field: string) returns (alias: string)
    ensures alias == SanitizeAlias(field)
  {
    var result := "";
    var lastUnderscore := false;
    assert field[0..] == field;
    for i := 0 to |field|
      invariant result + Squeeze(field[i..], lastUnderscore) == Squeeze(field, false)
    {
      var r := field[i];
      assert field[i..][1..] == field[i + 1..];
      if IsAlphanumeric(r) {
        result := result + [r];
        lastUnderscore := false;
      } else if !lastUnderscore {
        result := result + "_";
        lastUnderscore := true;
      }
    }
    assert result + "" == result;
    alias := TrimUnderscores(result);
  }

  /******* Words *******/

  predicate StartsAlphanumeric(s: string) { s != "" && IsAlphanumeric(s[0]) }

  /** The longest runs of letters and digits of a text, in order. */
  function Words(s: string): (words: seq<string>)
    ensures StartsAlphanumeric(s) ==> words != []
  {
    if s == "" then []
    else if !IsAlphanumeric(s[0]) then Words(s[1..])
    else if StartsAlphanumeric(s[1..]) then
      var words := Words(s[1..]);
      [[s[0]] + words[0]] + words[1..]
    else [[s[0]]] + Words(s[1..])
  }

  function Joined(words: seq<string>): string { Segmentation.Join('_', words) }

  predicate IsWord(w: string) { w != "" && forall c :: c in w ==> IsAlphanumeric(c) }

  predicate AreWords(words: seq<string>) { forall i :: 0 <= i < |words| ==> IsWord(words[i]) }

  /** The letters and digits of a text. */
  function Alphanumerics(s: string): string {
    if s == "" then "" else (if IsAlphanumeric(s[0]) then [s[0]] else "") + Alphanumerics(s[1..])
  }

  /** The words hold all letters and digits, in order, and nothing else. */
  lemma {:induction false} WordsHoldAlphanumerics(s: string)
    ensures AreWords(Words(s)) && Flatten(Words(s)) == Alphanumerics(s)
  {
    if s != "" {
      WordsHoldAlphanumerics(s[1..]);
      var words := Words(s[1..]);
      if IsAlphanumeric(s[0]) {
        if StartsAlphanumeric(s[1..]) {
          assert IsWord(words[0]);
          assert ([[s[0]] + words[0]] + words[1..])[1..] == words[1..];
        } else {
          assert ([[s[0]]] + words)[1..] == words;
        }
      }
    }
  }

  /** What an underscore is left of at the end. */
  function Tail(s: string): string { if Words(s) != [] && !IsAlphanumeric(s[|s| - 1]) then "_" else "" }

  lemma JoinedMore(c: char, words: seq<string>)
    requires words != []
    ensures Joined([[c] + words[0]] + words[1..]) == [c] + Joined(words)
  {
    assert ([[c] + words[0]] + words[1..])[1..] == words[1..];
  }

  lemma {:induction false} NoWordsNoEnd(s: string)
    requires s != "" && Words(s) == []
    ensures !IsAlphanumeric(s[|s| - 1])
  {
    if |s| > 1 {
      NoWordsNoEnd(s[1..]);
    }
  }

  lemma NextWord(c: char, words: seq<string>)
    ensures Joined([[c]] + words) == if words == [] then [c] else [c] + "_" + Joined(words)
  {
    assert ([[c]] + words)[1..] == words;
  }

  /** A word ends here: what was squeezed from the rest comes after an underscore. */
  lemma WordEnds(s: string, rest: string)
    requires 1 < |s| && IsAlphanumeric(s[0]) && !IsAlphanumeric(s[1]) && rest == s[2..]
    requires Squeeze(rest, true) == Joined(Words(rest)) + Tail(rest)
    ensures Squeeze(s, true) == Joined(Words(s)) + Tail(s)
  {
    assert s[1..][1..] == rest;
    assert Squeeze(s[1..], false) == "_" + Squeeze(rest, true);
    assert Words(s) == [[s[0]]] + Words(rest);
    NextWord(s[0], Words(rest));
    if Words(rest) == [] && rest != "" {
      NoWordsNoEnd(rest);
    }
  }

  lemma {:induction false} SqueezeJoinsWords(s: string)
    ensures Squeeze(s, true) == Joined(Words(s)) + Tail(s)
    decreases |s|
  {
    if 1 < |s| && IsAlphanumeric(s[0]) && !IsAlphanumeric(s[1]) {
      SqueezeJoinsWords(s[2..]);
      WordEnds(s, s[2..]);
    } else if s != "" {
      SqueezeJoinsWords(s[1..]);
      if StartsAlphanumeric(s[1..]) && IsAlphanumeric(s[0]) {
        assert Squeeze(s[1..], false) == Squeeze(s[1..], true);
        JoinedMore(s[0], Words(s[1..]));
      }
    }
  }

  /******* What an alias is *******/

  /** No underscore at either end. */
  predicate IsTrimmed(s: string) { s != "" ==> s[0] != '_' && s[|s| - 1] != '_' }

  /** No two underscores side by side. */
  predicate HasNoDouble(s: string) { forall i :: 0 <= i < |s| - 1 ==> !(s[i] == '_' && s[i + 1] == '_') }

  predicate IsAliasText(s: string) { forall c :: c in s ==> c == '_' || IsAlphanumeric(c) }

  lemma {:induction false} JoinedIsClean(words: seq<string>)
    requires AreWords(words)
    ensures IsAliasText(Joined(words)) && (words != [] ==> Joined(words) != "") && IsTrimmed(Joined(words)) && HasNoDouble(Joined(words))
  {
    if words != [] {
      var w, rest := words[0], Joined(words[1..]);
      assert IsWord(w);
      assert w[0] in w && w[|w| - 1] in w;
      JoinedIsClean(words[1..]);
      if |words| > 1 {
        var joined := w + ['_'] + rest;
        forall i | 0 <= i < |joined| - 1
          ensures !(joined[i] == '_' && joined[i + 1] == '_')
        {
          assert i < |w| ==> joined[i] in w;
          assert i > |w| ==> joined[i] == rest[i - |w| - 1] && joined[i + 1] == rest[i - |w|];
        }
      } else {
        assert HasNoDouble(w) by { assert forall i :: 0 <= i < |w| ==> w[i] in w; }
      }
    }
  }

  lemma TrimOff(s: string, tail: string)
    requires IsTrimmed(s) && (tail == "" || (tail == "_" && s != ""))
    ensures TrimUnderscores(s + tail) == s && TrimUnderscores("_" + (s + tail)) == s
  {
    var t := s + tail;
    assert tail == "" ==> t == s;
    assert t != "" && tail == "_" ==> t[..|t| - 1] == s;
    assert ("_" + t)[1..] == t;
  }

  /** An alias is the words of the field with one underscore between neighbours. */
  lemma AliasJoinsWords(field: string)
    ensures SanitizeAlias(field) == Joined(Words(field))
  {
    SqueezeJoinsWords(field);
    WordsHoldAlphanumerics(field);
    JoinedIsClean(Words(field));
    TrimOff(Joined(Words(field)), Tail(field));
    if field != "" && !IsAlphanumeric(field[0]) {
      assert Squeeze(field, false) == "_" + Squeeze(field, true);
    } else {
      assert Squeeze(field, false) == Squeeze(field, true);
    }
  }

  lemma {:induction false} AlphanumericsOfJoined(words: seq<string>)
    requires AreWords(words)
    ensures Alphanumerics(Joined(words)) == Flatten(words)
  {
    if words != [] {
      AlphanumericsOfJoined(words[1..]);
      var rest := if |words| == 1 then "" else ['_'] + Joined(words[1..]);
      assert |words| > 1 ==> rest[1..] == Joined(words[1..]);
      assert |words| == 1 ==> Flatten(words[1..]) == "";
      assert IsWord(words[0]);
      AlphanumericsOfWord(words[0], rest);
      assert Joined(words) == words[0] + rest;
    }
  }

  lemma {:induction false} AlphanumericsOfWord(w: string, rest: string)
    requires forall c :: c in w ==> IsAlphanumeric(c)
    ensures Alphanumerics(w + rest) == w + Alphanumerics(rest)
  {
    if w == "" {
      assert w + rest == rest;
    } else {
      assert w[0] in w && (w + rest)[1..] == w[1..] + rest;
      AlphanumericsOfWord(w[1..], rest);
    }
  }

  /** An alias keeps every letter and digit of the field, in order; between them are only single
      underscores, and none is at an end. */
  lemma AliasIsSqueezed(field: string)
    ensures var alias := SanitizeAlias(field);
      IsAliasText(alias) && IsTrimmed(alias) && HasNoDouble(alias) && Alphanumerics(alias) == Alphanumerics(field)
  {
    AliasJoinsWords(field);
    WordsHoldAlphanumerics(field);
    JoinedIsClean(Words(field));
    AlphanumericsOfJoined(Words(field));
  }

  lemma AlphanumericExactlyWhen(c: char)
    ensures IsAlphanumeric(c) <==> 48 <= c as int <= 57 || 65 <= c as int <= 90 || 97 <= c as int <= 122
  {
  }
}
