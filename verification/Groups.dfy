/**
 Which rows make a group, and what the cells of its row say, stated without keys and accumulators: rows
 are grouped by the texts of their group values.  The code joins these texts with NUL characters, so it
 is their pieces between NULs that decide; texts without NULs are their own pieces.
*/
module Groups {
  import opened Values
  import opened Aggregation
  import opened Paths

  /******* Labels *******/

  /** The texts of the group values of a row. */
  function TextsOf(num: Numerals, groupBy: seq<string>, row: Row): seq<string> {
    seq(|groupBy|, i requires 0 <= i < |groupBy| => TextAt(num, row, groupBy[i]))
  }

  predicate SameTexts(num: Numerals, groupBy: seq<string>, a: Row, b: Row) {
    forall i :: 0 <= i < |groupBy| ==> TextAt(num, a, groupBy[i]) == TextAt(num, b, groupBy[i])
  }

  /** A text cut at every NUL. */
  function Pieces(s: string): (pieces: seq<string>)
    ensures pieces != [] && forall i :: 0 <= i < |pieces| ==> '\0' !in pieces[i]
  {
    if s == "" then [""]
    else if s[0] == '\0' then [""] + Pieces(s[1..])
    else
      var rest := Pieces(s[1..]);
      [[s[0]] + rest[0]] + rest[1..]
  }

  /** The pieces of several texts, one after the other. */
  function PiecesOf(texts: seq<string>): seq<string> {
    if texts == [] then [] else Pieces(texts[0]) + PiecesOf(texts[1..])
  }

  ghost predicate NulFree(texts: seq<string>) { forall i :: 0 <= i < |texts| ==> '\0' !in texts[i] }

  lemma {:induction false} PiecesOfNulFree(texts: seq<string>)
    requires NulFree(texts)
    ensures PiecesOf(texts) == texts
  {
    if texts != [] {
      PiecesOfNulFree(texts[1..]);
      OnePiece(texts[0]);
      assert texts == [texts[0]] + texts[1..];
    }
  }

  lemma {:induction false} OnePiece(s: string)
    requires '\0' !in s
    ensures Pieces(s) == [s]
  {
    if s != "" {
      OnePiece(s[1..]);
      assert s[0] in s && s == [s[0]] + s[1..];
    }
  }

  /******* Joining *******/

  lemma JoinMore(part: string, parts: seq<string>)
    requires parts != []
    ensures Join([part] + parts) == part + "\0" + Join(parts)
  {
    assert ([part] + parts)[1..] == parts;
  }

  lemma JoinLonger(c: char, parts: seq<string>)
    requires parts != []
    ensures Join([[c] + parts[0]] + parts[1..]) == [c] + Join(parts)
  {
    var longer := [[c] + parts[0]] + parts[1..];
    assert longer[1..] == parts[1..];
    assert [c] + parts[0] + "\0" + Join(parts[1..]) == [c] + (parts[0] + "\0" + Join(parts[1..]));
  }

  lemma {:induction false} JoinInverts(s: string)
    ensures Join(Pieces(s)) == s
  {
    if s != "" {
      JoinInverts(s[1..]);
      assert s == [s[0]] + s[1..];
      if s[0] == '\0' {
        JoinMore("", Pieces(s[1..]));
        assert "" + "\0" + s[1..] == ['\0'] + s[1..];
      } else {
        JoinLonger(s[0], Pieces(s[1..]));
      }
    }
  }

  lemma {:induction false} JoinOfJoined(a: seq<string>, b: seq<string>)
    requires a != [] && b != []
    ensures Join(a + b) == Join(a) + "\0" + Join(b)
  {
    assert (a + b)[1..] == a[1..] + b;
    if |a| == 1 {
      assert a + b == [a[0]] + b;
    } else {
      JoinOfJoined(a[1..], b);
      assert a[0] + "\0" + (Join(a[1..]) + "\0" + Join(b)) == a[0] + "\0" + Join(a[1..]) + "\0" + Join(b);
    }
  }

  /** Joining texts is joining all their pieces. */
  lemma {:induction false} JoinOfPieces(texts: seq<string>)
    ensures Join(PiecesOf(texts)) == Join(texts)
  {
    if texts != [] {
      JoinInverts(texts[0]);
      JoinOfPieces(texts[1..]);
      if |texts| == 1 {
        assert PiecesOf(texts[1..]) == [] && Pieces(texts[0]) + [] == Pieces(texts[0]);
      } else {
        assert PiecesOf(texts[1..]) == Pieces(texts[1]) + PiecesOf(texts[1..][1..]);
        JoinOfJoined(Pieces(texts[0]), PiecesOf(texts[1..]));
      }
    }
  }

  /** What was joined from pieces without NULs tells which pieces they were. */
  lemma {:induction false} PiecesOfJoined(pieces: seq<string>)
    requires NulFree(pieces) && pieces != []
    ensures Pieces(Join(pieces)) == pieces
  {
    if |pieces| == 1 {
      OnePiece(pieces[0]);
    } else {
      PiecesOfJoined(pieces[1..]);
      FirstPiece(pieces[0], Join(pieces[1..]));
      assert pieces == [pieces[0]] + pieces[1..];
    }
  }

  lemma {:induction false} FirstPiece(piece: string, rest: string)
    requires '\0' !in piece
    ensures Pieces(piece + "\0" + rest) == [piece] + Pieces(rest)
  {
    var s := piece + "\0" + rest;
    if piece == "" {
      assert s[1..] == rest;
    } else {
      assert piece[0] in piece && s[0] == piece[0];
      assert s[1..] == piece[1..] + "\0" + rest;
      FirstPiece(piece[1..], rest);
      assert piece == [piece[0]] + piece[1..];
    }
  }

  lemma {:induction false} PiecesHaveNoNul(texts: seq<string>)
    ensures NulFree(PiecesOf(texts)) && (texts != [] ==> PiecesOf(texts) != [])
  {
    if texts != [] {
      PiecesHaveNoNul(texts[1..]);
    }
  }

  /** Lists of texts are joined to the same exactly if they have the same pieces. */
  lemma JoinsAgreeExactlyWhen(a: seq<string>, b: seq<string>)
    requires |a| == |b|
    ensures Join(a) == Join(b) <==> PiecesOf(a) == PiecesOf(b)
  {
    JoinOfPieces(a);
    JoinOfPieces(b);
    PiecesHaveNoNul(a);
    PiecesHaveNoNul(b);
    if a != [] {
      PiecesOfJoined(PiecesOf(a));
      PiecesOfJoined(PiecesOf(b));
    }
  }

  /******* Rows of one group *******/

  lemma {:induction false} InGroupExactlyWhen(num: Numerals, groupBy: seq<string>, key: string, rows: seq<Row>, row: Row)
    ensures row in Group(num, groupBy, key, rows) <==> row in rows && Join(TextsOf(num, groupBy, row)) == key
  {
    if rows != [] {
      var n := |rows| - 1;
      InGroupExactlyWhen(num, groupBy, key, rows[..n], row);
      assert rows == rows[..n] + [rows[n]];
      assert KeyParts(num, groupBy, row) == TextsOf(num, groupBy, row);
    }
  }

  ghost predicate ShareGroup(num: Numerals, groupBy: seq<string>, rows: seq<Row>, a: Row, b: Row) {
    exists key: string :: a in Group(num, groupBy, key, rows) && b in Group(num, groupBy, key, rows)
  }

  lemma ShareGroupMeansJoined(num: Numerals, groupBy: seq<string>, rows: seq<Row>, a: Row, b: Row)
    requires a in rows && b in rows
    ensures ShareGroup(num, groupBy, rows, a, b) <==> Join(TextsOf(num, groupBy, a)) == Join(TextsOf(num, groupBy, b))
  {
    var key := Join(TextsOf(num, groupBy, a));
    InGroupExactlyWhen(num, groupBy, key, rows, a);
    InGroupExactlyWhen(num, groupBy, key, rows, b);
    if ShareGroup(num, groupBy, rows, a, b) {
      var shared: string :| a in Group(num, groupBy, shared, rows) && b in Group(num, groupBy, shared, rows);
      InGroupExactlyWhen(num, groupBy, shared, rows, a);
      InGroupExactlyWhen(num, groupBy, shared, rows, b);
    }
  }

  lemma SameTextsMeanEqual(num: Numerals, groupBy: seq<string>, a: Row, b: Row)
    ensures SameTexts(num, groupBy, a, b) <==> TextsOf(num, groupBy, a) == TextsOf(num, groupBy, b)
  {
    var s, t := TextsOf(num, groupBy, a), TextsOf(num, groupBy, b);
    assert forall i :: 0 <= i < |groupBy| ==> s[i] == TextAt(num, a, groupBy[i]) && t[i] == TextAt(num, b, groupBy[i]);
    if s == t {
      assert forall i :: 0 <= i < |groupBy| ==> s[i] == t[i];
    }
  }

  /** Two rows share a group exactly if the texts of their group values have the same pieces between NULs:
      so always if the texts are the same, and otherwise only if one of them holds a NUL. */
  lemma ShareGroupExactlyWhen(num: Numerals, groupBy: seq<string>, rows: seq<Row>, a: Row, b: Row)
    requires a in rows && b in rows
    ensures ShareGroup(num, groupBy, rows, a, b) <==> PiecesOf(TextsOf(num, groupBy, a)) == PiecesOf(TextsOf(num, groupBy, b))
    ensures SameTexts(num, groupBy, a, b) ==> ShareGroup(num, groupBy, rows, a, b)
    ensures NulFree(TextsOf(num, groupBy, a)) && NulFree(TextsOf(num, groupBy, b)) ==>
      (ShareGroup(num, groupBy, rows, a, b) <==> SameTexts(num, groupBy, a, b))
  {
    var s, t := TextsOf(num, groupBy, a), TextsOf(num, groupBy, b);
    ShareGroupMeansJoined(num, groupBy, rows, a, b);
    JoinsAgreeExactlyWhen(s, t);
    SameTextsMeanEqual(num, groupBy, a, b);
    if NulFree(s) && NulFree(t) {
      PiecesOfNulFree(s);
      PiecesOfNulFree(t);
    }
  }

  /** Two rows with different texts in one group. */
  lemma NulsMergeGroups(num: Numerals)
    ensures var a: Row, b: Row := map["kind" := Text("a\0b"), "zone" := Text("c")], map["kind" := Text("a"), "zone" := Text("b\0c")];
      !SameTexts(num, ["kind", "zone"], a, b) && ShareGroup(num, ["kind", "zone"], [a, b], a, b)
  {
    var a: Row, b: Row := map["kind" := Text("a\0b"), "zone" := Text("c")], map["kind" := Text("a"), "zone" := Text("b\0c")];
    var fields := ["kind", "zone"];
    assert TextAt(num, a, fields[0]) == "a\0b" && TextAt(num, b, fields[0]) == "a" && "a\0b"[1] == '\0';
    assert TextsOf(num, fields, a) == ["a\0b", "c"] && TextsOf(num, fields, b) == ["a", "b\0c"];
    assert ["a\0b", "c"][1..] == ["c"] && ["a", "b\0c"][1..] == ["b\0c"];
    assert Join(["a\0b", "c"]) == "a\0b" + "\0" + "c" && Join(["a", "b\0c"]) == "a" + "\0" + "b\0c";
    assert "a\0b" + "\0" + "c" == "a" + "\0" + "b\0c";
    JoinsAgreeExactlyWhen(["a\0b", "c"], ["a", "b\0c"]);
    ShareGroupExactlyWhen(num, fields, [a, b], a, b);
  }
}
