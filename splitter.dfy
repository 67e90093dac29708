/**
 * From a fetched page to the list of embeds the bot posts (main.go,
 * lines 136-162): the page is cut after every zero width space, each chunk
 * at its first newline into a title and a description, and each
 * description into pieces of at most 4096 bytes that share the title.
 */
module Splitter {

  import opened Wrappers
  import opened Bytes
  import opened GoStrings

  /** One rich message card: the part of a Discord embed the bot fills in. */
  datatype Embed = Embed(title: seq<byte>, description: seq<byte>)

  /** The longest description, in bytes, the bot puts in one embed. */
  const MaxDescription: nat := 4096

  /** The separator that ends a chunk's title line. */
  const NewlineSep: seq<byte> := [Newline]

  /**
   * The embeds for one description: full 4096-byte slices while more than
   * 4096 bytes are left, then the remainder.
   */
  function Pages(title: seq<byte>, d: seq<byte>): seq<Embed>
    decreases |d|
  {
    if |d| > MaxDescription then
      [Embed(title, d[..MaxDescription])] + Pages(title, d[MaxDescription..])
    else
      [Embed(title, d)]
  }

  /** The descriptions of the embeds one after the other. */
  function Descriptions(es: seq<Embed>): seq<byte>
    decreases |es|
  {
    if es == [] then [] else es[0].description + Descriptions(es[1..])
  }

  /** The embeds of all chunks, in order, up to the first chunk that has no newline. */
  function EmbedsOf(chunks: seq<seq<byte>>): seq<Embed>
    decreases |chunks|
  {
    if chunks == [] then []
    else
      var split := SplitN2(chunks[0], NewlineSep);
      if |split| == 1 then []
      else Pages(split[0], split[1]) + EmbedsOf(chunks[1..])
  }

  /** The embeds of a whole page body. */
  function EmbedsOfBody(body: seq<byte>): seq<Embed>
  {
    EmbedsOf(SplitAfter(body, ZeroWidthSpace))
  }

  /** Every page of a description carries the title and at most 4096 bytes; all but the last carry exactly 4096. */
  lemma {:induction false} PagesBounded(title: seq<byte>, d: seq<byte>)
    ensures |Pages(title, d)| >= 1
    ensures forall i | 0 <= i < |Pages(title, d)| ::
      Pages(title, d)[i].title == title && |Pages(title, d)[i].description| <= MaxDescription
    ensures forall i | 0 <= i < |Pages(title, d)| - 1 :: |Pages(title, d)[i].description| == MaxDescription
    decreases |d|
  {
    if |d| > MaxDescription {
      PagesBounded(title, d[MaxDescription..]);
      var ps := Pages(title, d);
      assert forall i | 1 <= i < |ps| :: ps[i] == Pages(title, d[MaxDescription..])[i - 1];
    }
  }

  /** Joining the descriptions of the pages, in emission order, gives back the description. */
  lemma {:induction false} PagesRoundTrip(title: seq<byte>, d: seq<byte>)
    ensures Descriptions(Pages(title, d)) == d
    decreases |d|
  {
    if |d| > MaxDescription {
      PagesRoundTrip(title, d[MaxDescription..]);
      var ps := Pages(title, d);
      assert ps[1..] == Pages(title, d[MaxDescription..]);
      assert d == d[..MaxDescription] + d[MaxDescription..];
    } else {
      assert Pages(title, d)[1..] == [];
    }
  }

  /**
   * A non-empty description of n bytes gives ceil(n / 4096) pages, the last
   * of them non-empty; an empty one gives exactly one page, with an empty
   * description.
   */
  lemma {:induction false} PagesCount(title: seq<byte>, d: seq<byte>)
    ensures d == [] ==> Pages(title, d) == [Embed(title, [])]
    ensures d != [] ==> |Pages(title, d)| == (|d| + MaxDescription - 1) / MaxDescription
    ensures d != [] ==> Pages(title, d)[|Pages(title, d)| - 1].description != []
    decreases |d|
  {
    if |d| > MaxDescription {
      var rest := d[MaxDescription..];
      PagesCount(title, rest);
      assert (|d| + MaxDescription - 1) / MaxDescription == (|rest| + MaxDescription - 1) / MaxDescription + 1;
    }
  }

  /** The example of a 9000-byte description: three pages of 4096, 4096 and 808 bytes. */
  lemma Pages9000(title: seq<byte>, d: seq<byte>)
    requires |d| == 9000
    ensures |Pages(title, d)| == 3
    ensures |Pages(title, d)[0].description| == 4096
    ensures |Pages(title, d)[1].description| == 4096
    ensures |Pages(title, d)[2].description| == 808
  {
    PagesCount(title, d);
    PagesBounded(title, d);
    PagesRoundTrip(title, d);
    var ps := Pages(title, d);
    assert ps[2..] == Pages(title, d[8192..]);
  }

  /** No embed of any list of chunks has a description longer than 4096 bytes. */
  lemma {:induction false} EmbedsBounded(chunks: seq<seq<byte>>)
    ensures forall e | e in EmbedsOf(chunks) :: |e.description| <= MaxDescription
    decreases |chunks|
  {
    if chunks != [] {
      var split := SplitN2(chunks[0], NewlineSep);
      if |split| == 2 {
        PagesBounded(split[0], split[1]);
        EmbedsBounded(chunks[1..]);
      }
    }
  }

  /**
   * A chunk with a newline: its title is the text before the first newline,
   * every one of its embeds carries that title, and title, newline and the
   * descriptions joined in order give back the chunk, trailing zero width
   * space included.
   */
  lemma ChunkRoundTrip(chunk: seq<byte>)
    requires IndexOf(chunk, NewlineSep).Some?
    ensures var split := SplitN2(chunk, NewlineSep);
      && Newline !in split[0]
      && (forall e | e in Pages(split[0], split[1]) :: e.title == split[0])
      && split[0] + [Newline] + Descriptions(Pages(split[0], split[1])) == chunk
  {
    var split := SplitN2(chunk, NewlineSep);
    PagesBounded(split[0], split[1]);
    PagesRoundTrip(split[0], split[1]);
    if Newline in split[0] {
      var j :| 0 <= j < |split[0]| && split[0][j] == Newline;
      assert chunk[j..j + 1] == NewlineSep;
      assert OccursAt(chunk, NewlineSep, j);
    }
  }

  /** The first chunk without a newline ends processing: neither it nor any later chunk adds an embed. */
  lemma {:induction false} StopsAtFirstLineless(done: seq<seq<byte>>, chunk: seq<byte>, later: seq<seq<byte>>)
    requires IndexOf(chunk, NewlineSep) == None
    ensures EmbedsOf(done + [chunk] + later) == EmbedsOf(done)
    decreases |done|
  {
    if done == [] {
      assert done + [chunk] + later == [chunk] + later;
    } else {
      assert (done + [chunk] + later)[1..] == done[1..] + [chunk] + later;
      StopsAtFirstLineless(done[1..], chunk, later);
    }
  }

  /** While every chunk has a newline, chunks contribute their embeds in body order. */
  lemma {:induction false} EmbedsInOrder(first: seq<seq<byte>>, second: seq<seq<byte>>)
    requires forall i | 0 <= i < |first| :: IndexOf(first[i], NewlineSep).Some?
    ensures EmbedsOf(first + second) == EmbedsOf(first) + EmbedsOf(second)
    decreases |first|
  {
    if first == [] {
      assert first + second == second;
    } else {
      assert (first + second)[1..] == first[1..] + second;
      EmbedsInOrder(first[1..], second);
    }
  }

  /** "foo\n\nbar" U+200B, the first chunk of the example body. */
  const ExampleFirst: seq<byte> := [102, 111, 111, 10, 10, 98, 97, 114, 0xE2, 0x80, 0x8B]

  /** "baz\nqux", the second chunk of the example body. */
  const ExampleSecond: seq<byte> := [98, 97, 122, 10, 113, 117, 120]

  /** A separator whose first byte is missing from the first n bytes does not occur before n. */
  lemma NoLeadByte(s: seq<byte>, sep: seq<byte>, n: nat)
    requires |sep| > 0 && n <= |s| && sep[0] !in s[..n]
    ensures forall j | 0 <= j < n :: !OccursAt(s, sep, j)
  {
    forall j | 0 <= j < n ensures !OccursAt(s, sep, j) {
      assert s[..n][j] == s[j];
      assert s[j] != sep[0];
      if j + |sep| <= |s| {
        assert s[j..j + |sep|][0] == s[j];
      }
    }
  }

  /** The body "foo\n\nbar" U+200B "baz\nqux" is cut into exactly two chunks, after the zero width space. */
  lemma ExampleChunks()
    ensures SplitAfter(ExampleFirst + ExampleSecond, ZeroWidthSpace) == [ExampleFirst, ExampleSecond]
  {
    var body := ExampleFirst + ExampleSecond;
    assert OccursAt(body, ZeroWidthSpace, 8);
    NoLeadByte(body, ZeroWidthSpace, 8);
    assert IndexOf(body, ZeroWidthSpace) == Some(8);
    assert body[11..] == ExampleSecond;
    NoLeadByte(ExampleSecond, ZeroWidthSpace, 7);
    assert IndexOf(ExampleSecond, ZeroWidthSpace) == None;
    assert body[..11] == ExampleFirst;
  }

  /** Cutting a chunk whose first newline is at index i. */
  lemma CutAt(chunk: seq<byte>, i: nat)
    requires i < |chunk| && chunk[i] == Newline && Newline !in chunk[..i]
    ensures SplitN2(chunk, NewlineSep) == [chunk[..i], chunk[i + 1..]]
  {
    assert chunk[i..i + 1] == NewlineSep;
    assert OccursAt(chunk, NewlineSep, i);
    NoLeadByte(chunk, NewlineSep, i);
    assert IndexOf(chunk, NewlineSep) == Some(i);
  }

  /** The first example chunk is cut at its first newline only. */
  lemma ExampleFirstCut()
    ensures SplitN2(ExampleFirst, NewlineSep) == [[102, 111, 111], [10, 98, 97, 114, 0xE2, 0x80, 0x8B]]
  {
    assert ExampleFirst[..3] == [102, 111, 111] && ExampleFirst[4..] == [10, 98, 97, 114, 0xE2, 0x80, 0x8B];
    CutAt(ExampleFirst, 3);
  }

  /** The second example chunk is cut at its newline. */
  lemma ExampleSecondCut()
    ensures SplitN2(ExampleSecond, NewlineSep) == [[98, 97, 122], [113, 117, 120]]
  {
    assert ExampleSecond[..3] == [98, 97, 122] && ExampleSecond[4..] == [113, 117, 120];
    CutAt(ExampleSecond, 3);
  }

  /** The two example chunks give one embed each, titled by the first line. */
  lemma ExampleChunkEmbeds()
    ensures EmbedsOf([ExampleFirst, ExampleSecond]) ==
      [Embed([102, 111, 111], [10, 98, 97, 114, 0xE2, 0x80, 0x8B]), Embed([98, 97, 122], [113, 117, 120])]
  {
    ExampleFirstCut();
    ExampleSecondCut();
    var e2 := Embed([98, 97, 122], [113, 117, 120]);
    assert EmbedsOf([ExampleSecond]) == [e2] by {
      assert [ExampleSecond][1..] == [];
    }
    assert [ExampleFirst, ExampleSecond][1..] == [ExampleSecond];
  }

  /**
   * Each chunk of the example body is cut at its first newline only: the
   * embeds are ("foo", "\nbar" U+200B) and ("baz", "qux").
   */
  lemma ExampleEmbeds()
    ensures EmbedsOfBody(ExampleFirst + ExampleSecond) ==
      [Embed([102, 111, 111], [10, 98, 97, 114, 0xE2, 0x80, 0x8B]), Embed([98, 97, 122], [113, 117, 120])]
  {
    ExampleChunks();
    ExampleChunkEmbeds();
  }

  /**
   * The pagination loop of one chunk (lines 148-161): 4096-byte slices
   * while more than 4096 bytes are left, then the remainder.
   */
  method Paginate(title: seq<byte>, description: seq<byte>) returns (pages: seq<Embed>)
    ensures pages == Pages(title, description)
  {
    pages := [];
    var rest := description;
    if |rest| > MaxDescription {
      while |rest| > MaxDescription
        invariant pages + Pages(title, rest) == Pages(title, description)
      {
        pages := pages + [Embed(title, rest[..MaxDescription])];
        rest := rest[MaxDescription..];
      }
    }
    pages := pages + [Embed(title, rest)];
  }

  /**
   * `for … range sections` (lines 140-162): append the embeds of every
   * chunk, stopping at the first chunk without a newline.
   */
  method BuildEmbeds(chunks: seq<seq<byte>>) returns (embeds: seq<Embed>)
    ensures embeds == EmbedsOf(chunks)
  {
    embeds := [];
    for i := 0 to |chunks|
      invariant EmbedsOf(chunks) == embeds + EmbedsOf(chunks[i..])
    {
      var split := SplitN2(chunks[i], NewlineSep);
      var title := split[0];
      if |split| == 1 {
        break;
      }
      var description := split[1];
      assert chunks[i..][1..] == chunks[i + 1..];
      var pages := Paginate(title, description);
      embeds := embeds + pages;
    }
  }
}
