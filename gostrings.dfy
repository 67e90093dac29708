/**
 * The parts of Go's `strings` package the handler uses: `Split` on one
 * space, `SplitAfter` on a multi-byte separator, `SplitN(s, sep, 2)`, and
 * `Index`, which all three rest on.
 */
module GoStrings {

  import opened Wrappers
  import opened Bytes

  /** The words joined with one `sep` between neighbours. */
  function Join(ws: seq<seq<byte>>, sep: byte): seq<byte>
    requires |ws| >= 1
    decreases |ws|
  {
    if |ws| == 1 then ws[0] else ws[0] + [sep] + Join(ws[1..], sep)
  }

  /** All pieces one after the other. */
  function Concat(ps: seq<seq<byte>>): seq<byte>
    decreases |ps|
  {
    if ps == [] then [] else ps[0] + Concat(ps[1..])
  }

  /**
   * `strings.Split(s, string(sep))`: the maximal sep-free pieces between
   * the occurrences of `sep`; the empty string gives one empty word.
   */
  function Split(s: seq<byte>, sep: byte): (ws: seq<seq<byte>>)
    ensures |ws| >= 1
    ensures forall i | 0 <= i < |ws| :: sep !in ws[i]
    decreases |s|
  {
    if s == [] then [[]]
    else
      var rest := Split(s[1..], sep);
      if s[0] == sep then
        assert ([[]] + rest)[1..] == rest;
        [[]] + rest
      else
        var ws := [[s[0]] + rest[0]] + rest[1..];
        assert ws[1..] == rest[1..];
        ws
  }

  /** Joining the words of a split with the separator gives back the text. */
  lemma {:induction false} JoinSplit(s: seq<byte>, sep: byte)
    ensures Join(Split(s, sep), sep) == s
    decreases |s|
  {
    if s != [] {
      var rest := Split(s[1..], sep);
      JoinSplit(s[1..], sep);
      var ws := Split(s, sep);
      assert s == [s[0]] + s[1..];
      if s[0] == sep {
        assert ws == [[]] + rest;
        assert ws[1..] == rest;
      } else {
        assert ws == [[s[0]] + rest[0]] + rest[1..];
        assert ws[1..] == rest[1..];
        if |rest| > 1 {
          assert Join(rest, sep) == rest[0] + [sep] + Join(rest[1..], sep);
        }
      }
    }
  }

  /** Splitting a sep-free word followed by anything keeps that word at the front of the first piece. */
  lemma {:induction false} SplitAfterWord(w: seq<byte>, rest: seq<byte>, sep: byte)
    requires sep !in w
    ensures Split(w + rest, sep) == [w + Split(rest, sep)[0]] + Split(rest, sep)[1..]
    decreases |w|
  {
    if w != [] {
      var r := Split(rest, sep);
      assert (w + rest)[1..] == w[1..] + rest;
      SplitAfterWord(w[1..], rest, sep);
      var r' := Split(w[1..] + rest, sep);
      assert r' == [w[1..] + r[0]] + r[1..];
      assert r'[0] == w[1..] + r[0] && r'[1..] == r[1..];
      assert Split(w + rest, sep) == [[w[0]] + r'[0]] + r'[1..];
      assert [w[0]] + (w[1..] + r[0]) == w + r[0];
    } else {
      var r := Split(rest, sep);
      assert w + rest == rest && w + r[0] == r[0];
      assert r == [r[0]] + r[1..];
    }
  }

  /** A leading separator splits off an empty first word. */
  lemma SplitLeadingSep(rest: seq<byte>, sep: byte)
    ensures Split([sep] + rest, sep) == [[]] + Split(rest, sep)
  {
    assert ([sep] + rest)[1..] == rest;
  }

  /** Split undoes Join when no word holds the separator: the words of a message are exactly its tokens. */
  lemma {:induction false} SplitJoin(ws: seq<seq<byte>>, sep: byte)
    requires |ws| >= 1
    requires forall i | 0 <= i < |ws| :: sep !in ws[i]
    ensures Split(Join(ws, sep), sep) == ws
    decreases |ws|
  {
    if |ws| == 1 {
      SplitAfterWord(ws[0], [], sep);
      assert ws[0] + [] == ws[0];
    } else {
      var j := Join(ws[1..], sep);
      SplitJoin(ws[1..], sep);
      SplitLeadingSep(j, sep);
      var r := Split([sep] + j, sep);
      assert r == [[]] + ws[1..];
      assert r[0] == [] && r[1..] == ws[1..];
      SplitAfterWord(ws[0], [sep] + j, sep);
      assert Join(ws, sep) == ws[0] + ([sep] + j);
      assert ws[0] + r[0] == ws[0];
      assert ws == [ws[0]] + ws[1..];
    }
  }

  /** `sep` occurs in `s` starting at index `j`. */
  predicate OccursAt(s: seq<byte>, sep: seq<byte>, j: int)
  {
    0 <= j && j + |sep| <= |s| && s[j..j + |sep|] == sep
  }

  /** The first occurrence of `sep` in `s` at or after `from`. */
  function IndexFrom(s: seq<byte>, sep: seq<byte>, from: nat): (r: Option<nat>)
    ensures r.Some? ==> from <= r.value && OccursAt(s, sep, r.value)
    ensures r.Some? ==> forall j | from <= j < r.value :: !OccursAt(s, sep, j)
    ensures r.None? ==> forall j | from <= j :: !OccursAt(s, sep, j)
    decreases |s| - from
  {
    if from + |sep| > |s| then None
    else if s[from..from + |sep|] == sep then Some(from)
    else IndexFrom(s, sep, from + 1)
  }

  /** `strings.Index(s, sep)`: the first occurrence of `sep`, or None for Go's -1. */
  function IndexOf(s: seq<byte>, sep: seq<byte>): (r: Option<nat>)
    ensures r.Some? ==> OccursAt(s, sep, r.value) && forall j | 0 <= j < r.value :: !OccursAt(s, sep, j)
    ensures r.None? ==> forall j | 0 <= j :: !OccursAt(s, sep, j)
  {
    IndexFrom(s, sep, 0)
  }

  /** An occurrence that fits inside a prefix is an occurrence in the whole string, and back. */
  lemma OccursInPrefix(s: seq<byte>, k: nat, sep: seq<byte>, j: int)
    requires k <= |s| && j + |sep| <= k
    ensures OccursAt(s[..k], sep, j) <==> OccursAt(s, sep, j)
  {
    if 0 <= j {
      assert s[..k][j..j + |sep|] == s[j..j + |sep|];
    }
  }

  /** Cut right after the first occurrence of `sep`, the piece holds it only at its end. */
  lemma FirstPiece(s: seq<byte>, sep: seq<byte>, m: nat)
    requires IndexOf(s, sep) == Some(m)
    ensures IndexOf(s[..m + |sep|], sep) == Some(m)
  {
    var k := m + |sep|;
    OccursInPrefix(s, k, sep, m);
    forall j | 0 <= j < m ensures !OccursAt(s[..k], sep, j) {
      OccursInPrefix(s, k, sep, j);
    }
  }

  /**
   * `strings.SplitAfter(s, sep)`: cut after every occurrence of `sep`,
   * scanning left to right; the separator stays at the end of its piece
   * and the last piece is whatever follows the last occurrence.
   */
  function SplitAfter(s: seq<byte>, sep: seq<byte>): (ps: seq<seq<byte>>)
    requires |sep| > 0
    ensures |ps| >= 1
    ensures Concat(ps) == s
    decreases |s|
  {
    match IndexOf(s, sep)
    case None => [s]
    case Some(m) =>
      var k := m + |sep|;
      var tail := SplitAfter(s[k..], sep);
      assert ([s[..k]] + tail)[1..] == tail;
      assert s == s[..k] + s[k..];
      [s[..k]] + tail
  }

  /** `p` ends with `sep`, and that is the first place `sep` occurs in it. */
  predicate EndsAtFirst(p: seq<byte>, sep: seq<byte>)
  {
    |p| >= |sep| && IndexOf(p, sep) == Some(|p| - |sep|)
  }

  /** Pieces all cut after a separator, except the last, which holds none. */
  predicate CutAfterEach(ps: seq<seq<byte>>, sep: seq<byte>)
  {
    && |ps| >= 1
    && (forall i | 0 <= i < |ps| - 1 :: EndsAtFirst(ps[i], sep))
    && IndexOf(ps[|ps| - 1], sep) == None
  }

  /** Putting a piece cut after its first separator in front keeps the shape. */
  lemma CutAfterCons(head: seq<byte>, tail: seq<seq<byte>>, sep: seq<byte>)
    requires EndsAtFirst(head, sep) && CutAfterEach(tail, sep)
    ensures CutAfterEach([head] + tail, sep)
  {
    var ps := [head] + tail;
    assert forall i | 1 <= i < |ps| :: ps[i] == tail[i - 1];
  }

  /**
   * Every piece but the last ends with the separator and holds no earlier
   * occurrence of it; the last piece holds none at all.
   */
  lemma {:induction false} SplitAfterPieces(s: seq<byte>, sep: seq<byte>)
    requires |sep| > 0
    ensures CutAfterEach(SplitAfter(s, sep), sep)
    decreases |s|
  {
    match IndexOf(s, sep)
    case None =>
    case Some(m) =>
      var k := m + |sep|;
      SplitAfterPieces(s[k..], sep);
      FirstPiece(s, sep, m);
      CutAfterCons(s[..k], SplitAfter(s[k..], sep), sep);
  }

  /**
   * `strings.SplitN(s, sep, 2)`: the whole string when `sep` does not occur,
   * otherwise the text before its first occurrence and the text after it.
   */
  function SplitN2(s: seq<byte>, sep: seq<byte>): (ps: seq<seq<byte>>)
    requires |sep| > 0
    ensures |ps| == 1 || |ps| == 2
    ensures |ps| == 1 <==> IndexOf(s, sep) == None
    ensures |ps| == 1 ==> ps[0] == s
    ensures |ps| == 2 ==> ps[0] + sep + ps[1] == s && IndexOf(s, sep) == Some(|ps[0]|)
  {
    match IndexOf(s, sep)
    case None => [s]
    case Some(m) =>
      assert s == s[..m] + sep + s[m + |sep|..];
      [s[..m], s[m + |sep|..]]
  }
}
