/**
 * The JavaScript string behaviour the core relies on: `String.prototype.split`
 * with a one-character separator (scope lists, comma-separated redirect URIs),
 * `trim() === ''` (blank parameters) and the text a missing value turns into
 * when it is concatenated (`salt + undefined`).
 */
module Text {
  import opened Wrappers

  /** The code points `String.prototype.trim` removes: WhiteSpace and LineTerminator. */
  predicate IsJsWhitespace(c: char) {
    || ('\t' <= c <= '\r')        // tab, line feed, vertical tab, form feed, carriage return
    || c == ' '
    || c == '\U{00A0}'
    || c == '\U{1680}'
    || ('\U{2000}' <= c <= '\U{200A}')
    || c == '\U{2028}' || c == '\U{2029}'
    || c == '\U{202F}' || c == '\U{205F}'
    || c == '\U{3000}' || c == '\U{FEFF}'
  }

  /** `s.trim() === ''`. */
  predicate IsBlank(s: string) {
    forall i :: 0 <= i < |s| ==> IsJsWhitespace(s[i])
  }

  /** The text a value becomes under `+` with a string: an absent value reads "undefined". */
  function JsText(v: Option<string>): string {
    match v
    case Some(s) => s
    case None => "undefined"
  }

  /** `pieces.join(sep)`. */
  function Join(pieces: seq<string>, sep: char): string {
    if |pieces| == 0 then ""
    else if |pieces| == 1 then pieces[0]
    else pieces[0] + [sep] + Join(pieces[1..], sep)
  }

  /**
   * `s.split(sep)` for a one-character separator: the maximal runs between
   * separators, so there is always at least one piece, "" splits to [""],
   * and two adjacent separators give an empty piece between them.
   */
  function Split(s: string, sep: char): (r: seq<string>)
    ensures |r| >= 1
    ensures forall i :: 0 <= i < |r| ==> sep !in r[i]
  {
    if s == [] then [""]
    else
      var rest := Split(s[1..], sep);
      if s[0] == sep then [""] + rest
      else [[s[0]] + rest[0]] + rest[1..]
  }

  /** Splitting and joining on the same separator gives back the text. */
  lemma {:induction false} JoinSplit(s: string, sep: char)
    ensures Join(Split(s, sep), sep) == s
  {
    if s != [] {
      var rest := Split(s[1..], sep);
      JoinSplit(s[1..], sep);
      if s[0] == sep {
        assert Split(s, sep) == [""] + rest;
        assert ([""] + rest)[1..] == rest;
      } else {
        var r := Split(s, sep);
        assert r == [[s[0]] + rest[0]] + rest[1..];
        if |rest| == 1 {
          assert Join(rest, sep) == rest[0];
        } else {
          assert r[1..] == rest[1..];
          assert Join(rest, sep) == rest[0] + [sep] + Join(rest[1..], sep);
        }
      }
    }
  }

  /** Joining separator-free pieces and splitting again gives back the pieces. */
  lemma {:induction false} SplitJoin(pieces: seq<string>, sep: char)
    requires |pieces| >= 1
    requires forall i :: 0 <= i < |pieces| ==> sep !in pieces[i]
    ensures Split(Join(pieces, sep), sep) == pieces
    decreases |pieces|, |pieces[0]|
  {
    var p := pieces[0];
    if |pieces| == 1 {
      SplitFree(p, sep);
    } else if p == [] {
      var tail := pieces[1..];
      SplitJoin(tail, sep);
      assert Join(pieces, sep) == [sep] + Join(tail, sep);
      assert ([sep] + Join(tail, sep))[1..] == Join(tail, sep);
      assert [""] + tail == pieces;
    } else {
      var shorter := [p[1..]] + pieces[1..];
      DropFirstCharFree(pieces, sep);
      SplitJoin(shorter, sep);
      JoinDropFirstChar(pieces, sep);
      assert p[0] != sep by { assert p[0] in p; }
      SplitCons(p[0], Join(shorter, sep), sep);
      assert [[p[0]] + shorter[0]] + shorter[1..] == pieces by {
        assert [p[0]] + p[1..] == p;
        assert shorter[1..] == pieces[1..];
      }
    }
  }

  /** Dropping the first character of the first piece keeps every piece separator-free. */
  lemma DropFirstCharFree(pieces: seq<string>, sep: char)
    requires |pieces| >= 1 && pieces[0] != []
    requires forall i :: 0 <= i < |pieces| ==> sep !in pieces[i]
    ensures var shorter := [pieces[0][1..]] + pieces[1..];
            forall i :: 0 <= i < |shorter| ==> sep !in shorter[i]
  {
    var shorter := [pieces[0][1..]] + pieces[1..];
    forall i | 0 <= i < |shorter|
      ensures sep !in shorter[i]
    {
      if i == 0 {
        assert forall c :: c in pieces[0][1..] ==> c in pieces[0];
      } else {
        assert shorter[i] == pieces[i];
      }
    }
  }

  /** Joining pieces whose first piece starts with `c` is `c` followed by the join without it. */
  lemma JoinDropFirstChar(pieces: seq<string>, sep: char)
    requires |pieces| >= 1 && pieces[0] != []
    ensures Join(pieces, sep) == [pieces[0][0]] + Join([pieces[0][1..]] + pieces[1..], sep)
  {
    var p := pieces[0];
    var shorter := [p[1..]] + pieces[1..];
    assert shorter[1..] == pieces[1..];
    assert p == [p[0]] + p[1..];
  }

  /** Splitting a text that starts with a non-separator glues it to the first piece of the rest. */
  lemma SplitCons(c: char, s: string, sep: char)
    requires c != sep
    ensures Split([c] + s, sep) == [[c] + Split(s, sep)[0]] + Split(s, sep)[1..]
  {
    assert ([c] + s)[1..] == s;
  }

  /** A text without the separator is one piece. */
  lemma {:induction false} SplitFree(s: string, sep: char)
    requires sep !in s
    ensures Split(s, sep) == [s]
  {
    if s != [] {
      assert sep !in s[1..] by { assert forall c :: c in s[1..] ==> c in s; }
      SplitFree(s[1..], sep);
      assert s[0] != sep by { assert s[0] in s; }
      assert [s[0]] + s[1..] == s;
    }
  }
}
