/**
 * The word chunker of the contract reviewer (`split_text_into_chunks`).
 *
 * The text is split into whitespace-delimited words; words are added one at a
 * time to the current chunk, and as soon as the space-joined chunk is longer
 * than three quarters of `maxTokens` characters it is sealed and a new chunk
 * starts. A non-empty remainder becomes the last chunk.
 *
 * The floating-point test `len > maxTokens * 0.75` is stated as the exact
 * integer test `4 * len > 3 * maxTokens`, which agrees with it over the reals.
 */
module Chunker {

  // ---------------------------------------------------------------------------
  // Words: Python's str.split() with no separator
  // ---------------------------------------------------------------------------

  /** The characters Python's `str.isspace()` accepts, on which `str.split()` breaks. */
  predicate IsSpace(c: char) {
    var n := c as int;
    (0x09 <= n <= 0x0D) || (0x1C <= n <= 0x20) || n == 0x85 || n == 0xA0 || n == 0x1680
    || (0x2000 <= n <= 0x200A) || n == 0x2028 || n == 0x2029 || n == 0x202F
    || n == 0x205F || n == 0x3000
  }

  predicate NoSpace(s: string) {
    forall i :: 0 <= i < |s| ==> !IsSpace(s[i])
  }

  /** A word as `str.split()` produces it: non-empty, without whitespace. */
  type Word = w: string | |w| > 0 && NoSpace(w) witness "a"

  /** Splits `s`, with `cur` the letters of the word read so far. */
  function SplitFrom(s: string, cur: string): seq<Word>
    requires NoSpace(cur)
    decreases |s|
  {
    if s == [] then
      (if cur == [] then [] else [cur])
    else if IsSpace(s[0]) then
      (if cur == [] then [] else [cur]) + SplitFrom(s[1..], [])
    else
      SplitFrom(s[1..], cur + [s[0]])
  }

  /** `text.split()`: the maximal runs of non-whitespace characters, in order. */
  function SplitWords(text: string): seq<Word> {
    SplitFrom(text, [])
  }

  /** `" ".join(ws)`. */
  function Join(ws: seq<Word>): string {
    if ws == [] then ""
    else if |ws| == 1 then ws[0]
    else ws[0] + " " + Join(ws[1..])
  }

  function TotalLength(ws: seq<Word>): nat {
    if ws == [] then 0 else |ws[0]| + TotalLength(ws[1..])
  }

  /** The concatenation of a sequence of sequences. */
  function Flatten<T>(ss: seq<seq<T>>): seq<T> {
    if ss == [] then [] else ss[0] + Flatten(ss[1..])
  }

  lemma {:induction false} FlattenConcat<T>(ss: seq<seq<T>>, ts: seq<seq<T>>)
    ensures Flatten(ss + ts) == Flatten(ss) + Flatten(ts)
    decreases |ss|
  {
    if ss == [] {
      assert ss + ts == ts;
    } else {
      assert (ss + ts)[1..] == ss[1..] + ts;
      FlattenConcat(ss[1..], ts);
    }
  }

  lemma FlattenOfNonEmpty<T>(ss: seq<seq<T>>)
    requires forall i :: 0 <= i < |ss| ==> ss[i] != []
    ensures Flatten(ss) == [] <==> ss == []
  {
  }

  /** The joined length of w1..wk is |w1| + ... + |wk| plus the k - 1 separating spaces. */
  lemma {:induction false} JoinLength(ws: seq<Word>)
    requires ws != []
    ensures |Join(ws)| == TotalLength(ws) + |ws| - 1
    decreases |ws|
  {
    if |ws| > 1 {
      JoinLength(ws[1..]);
    }
  }

  /** Dropping words from the end never makes the joined text longer. */
  lemma {:induction false} JoinPrefixShorter(ws: seq<Word>, k: nat)
    requires k <= |ws|
    ensures |Join(ws[..k])| <= |Join(ws)|
    decreases |ws|
  {
    if k == 0 {
    } else if |ws| == 1 {
      assert ws[..k] == ws;
    } else if k == 1 {
      assert ws[..1] == [ws[0]];
    } else {
      assert ws[..k][1..] == ws[1..][..k - 1];
      JoinPrefixShorter(ws[1..], k - 1);
    }
  }

  /** Reading a run of non-space letters just extends the current word. */
  lemma {:induction false} SplitFromLetters(w: string, rest: string, cur: string)
    requires NoSpace(w) && NoSpace(cur)
    ensures NoSpace(cur + w)
    ensures SplitFrom(w + rest, cur) == SplitFrom(rest, cur + w)
    decreases |w|
  {
    if w == [] {
      assert w + rest == rest;
      assert cur + w == cur;
    } else {
      assert (w + rest)[0] == w[0];
      assert (w + rest)[1..] == w[1..] + rest;
      assert NoSpace(cur + [w[0]]);
      SplitFromLetters(w[1..], rest, cur + [w[0]]);
      assert cur + [w[0]] + w[1..] == cur + w;
    }
  }

  /** Splitting the space-joined words gives back exactly those words. */
  lemma {:induction false} SplitJoin(ws: seq<Word>)
    ensures SplitWords(Join(ws)) == ws
    decreases |ws|
  {
    if ws == [] {
    } else if |ws| == 1 {
      SplitFromLetters(ws[0], "", "");
      assert ws[0] + "" == ws[0];
      assert "" + ws[0] == ws[0];
      assert SplitFrom("", ws[0]) == [ws[0]];
    } else {
      var rest := " " + Join(ws[1..]);
      assert Join(ws) == ws[0] + rest;
      SplitFromLetters(ws[0], rest, "");
      assert "" + ws[0] == ws[0];
      assert rest[0] == ' ' && rest[1..] == Join(ws[1..]);
      assert SplitFrom(rest, ws[0]) == [ws[0]] + SplitFrom(Join(ws[1..]), []);
      SplitJoin(ws[1..]);
    }
  }

  // ---------------------------------------------------------------------------
  // Chunks as word sequences
  // ---------------------------------------------------------------------------

  /** The sealing test: the space-joined chunk is longer than `maxTokens * 0.75`. */
  predicate Exceeds(chunk: seq<Word>, maxTokens: int) {
    4 * |Join(chunk)| > 3 * maxTokens
  }

  /** With its final word removed, the chunk is within the cap. */
  predicate AtMostOneWordOver(chunk: seq<Word>, maxTokens: int) {
    |chunk| <= 1 || !Exceeds(chunk[..|chunk| - 1], maxTokens)
  }

  /**
   * The chunks the loop emits when the words still to read are `ws` and the
   * chunk being built is `cur`.
   */
  function ChunkFrom(ws: seq<Word>, cur: seq<Word>, maxTokens: int): seq<seq<Word>>
    decreases |ws|
  {
    if ws == [] then
      (if cur == [] then [] else [cur])
    else
      var grown := cur + [ws[0]];
      if Exceeds(grown, maxTokens) then [grown] + ChunkFrom(ws[1..], [], maxTokens)
      else ChunkFrom(ws[1..], grown, maxTokens)
  }

  /** The chunks of a word sequence, as word sequences. */
  function Chunks(ws: seq<Word>, maxTokens: int): seq<seq<Word>> {
    ChunkFrom(ws, [], maxTokens)
  }

  /**
   * An independent description of a correct chunking of `ws`: the chunks
   * flatten back to `ws`, none is empty, every chunk but the last is over the
   * cap, and every chunk is over the cap by at most its final word.
   */
  ghost predicate IsChunking(ws: seq<Word>, cs: seq<seq<Word>>, maxTokens: int) {
    && Flatten(cs) == ws
    && (forall i :: 0 <= i < |cs| ==> cs[i] != [])
    && (forall i :: 0 <= i < |cs| - 1 ==> Exceeds(cs[i], maxTokens))
    && (forall i :: 0 <= i < |cs| ==> AtMostOneWordOver(cs[i], maxTokens))
  }

  /** No word is lost, duplicated or reordered. */
  lemma {:induction false} ChunkFromFlatten(ws: seq<Word>, cur: seq<Word>, maxTokens: int)
    ensures Flatten(ChunkFrom(ws, cur, maxTokens)) == cur + ws
    decreases |ws|
  {
    if ws == [] {
      if cur != [] {
        assert [cur][1..] == [];
      }
    } else {
      var grown := cur + [ws[0]];
      assert grown + ws[1..] == cur + ws;
      if Exceeds(grown, maxTokens) {
        var rest := ChunkFrom(ws[1..], [], maxTokens);
        ChunkFromFlatten(ws[1..], [], maxTokens);
        assert ([grown] + rest)[1..] == rest;
        assert [] + ws[1..] == ws[1..];
      } else {
        ChunkFromFlatten(ws[1..], grown, maxTokens);
      }
    }
  }

  /** Every emitted chunk holds at least one word. */
  lemma {:induction false} ChunkFromNonEmpty(ws: seq<Word>, cur: seq<Word>, maxTokens: int)
    ensures forall i :: 0 <= i < |ChunkFrom(ws, cur, maxTokens)| ==> ChunkFrom(ws, cur, maxTokens)[i] != []
    decreases |ws|
  {
    if ws != [] {
      var grown := cur + [ws[0]];
      if Exceeds(grown, maxTokens) {
        ChunkFromNonEmpty(ws[1..], [], maxTokens);
      } else {
        ChunkFromNonEmpty(ws[1..], grown, maxTokens);
      }
    }
  }

  /** A chunk is only sealed once it is over the cap, so every chunk but the last is over it. */
  lemma {:induction false} ChunkFromSealedExceed(ws: seq<Word>, cur: seq<Word>, maxTokens: int)
    ensures forall i :: 0 <= i < |ChunkFrom(ws, cur, maxTokens)| - 1 ==>
      Exceeds(ChunkFrom(ws, cur, maxTokens)[i], maxTokens)
    decreases |ws|
  {
    if ws != [] {
      var grown := cur + [ws[0]];
      if Exceeds(grown, maxTokens) {
        var rest := ChunkFrom(ws[1..], [], maxTokens);
        ChunkFromSealedExceed(ws[1..], [], maxTokens);
        forall i | 0 < i < |rest|
          ensures Exceeds(([grown] + rest)[i], maxTokens)
        {
          assert ([grown] + rest)[i] == rest[i - 1];
        }
      } else {
        ChunkFromSealedExceed(ws[1..], grown, maxTokens);
      }
    }
  }

  /**
   * The chunk being built is within the cap until the word that seals it, so
   * each chunk overshoots the cap by at most one word.
   */
  lemma {:induction false} ChunkFromOvershoot(ws: seq<Word>, cur: seq<Word>, maxTokens: int)
    requires cur == [] || (!Exceeds(cur, maxTokens) && AtMostOneWordOver(cur, maxTokens))
    ensures forall i :: 0 <= i < |ChunkFrom(ws, cur, maxTokens)| ==>
      AtMostOneWordOver(ChunkFrom(ws, cur, maxTokens)[i], maxTokens)
    decreases |ws|
  {
    if ws != [] {
      var grown := cur + [ws[0]];
      assert grown[..|grown| - 1] == cur;
      if Exceeds(grown, maxTokens) {
        var rest := ChunkFrom(ws[1..], [], maxTokens);
        ChunkFromOvershoot(ws[1..], [], maxTokens);
        forall i | 0 < i <= |rest|
          ensures AtMostOneWordOver(([grown] + rest)[i], maxTokens)
        {
          assert ([grown] + rest)[i] == rest[i - 1];
        }
      } else {
        ChunkFromOvershoot(ws[1..], grown, maxTokens);
      }
    }
  }

  /** The chunker's output is a correct chunking; no words gives no chunks. */
  lemma ChunksAreChunking(ws: seq<Word>, maxTokens: int)
    ensures IsChunking(ws, Chunks(ws, maxTokens), maxTokens)
    ensures Chunks(ws, maxTokens) == [] <==> ws == []
  {
    ChunkFromFlatten(ws, [], maxTokens);
    ChunkFromNonEmpty(ws, [], maxTokens);
    ChunkFromSealedExceed(ws, [], maxTokens);
    ChunkFromOvershoot(ws, [], maxTokens);
    assert [] + ws == ws;
  }

  /** If the first chunk of `cs` were shorter than that of `ds`, it would be within the cap. */
  lemma FirstChunkNotShorter(ws: seq<Word>, cs: seq<seq<Word>>, ds: seq<seq<Word>>, maxTokens: int)
    requires IsChunking(ws, cs, maxTokens) && IsChunking(ws, ds, maxTokens)
    requires cs != [] && ds != []
    ensures |cs[0]| >= |ds[0]|
  {
    var c, d := cs[0], ds[0];
    assert ws == c + Flatten(cs[1..]);
    assert ws == d + Flatten(ds[1..]);
    if |c| < |d| {
      var shorter := d[..|d| - 1];
      assert c == ws[..|c|] == d[..|c|] == shorter[..|c|];
      JoinPrefixShorter(shorter, |c|);
      assert false;
    }
  }

  /** Two chunkings of the same words are the same chunking. */
  lemma {:induction false} ChunkingUnique(ws: seq<Word>, cs: seq<seq<Word>>, ds: seq<seq<Word>>, maxTokens: int)
    requires IsChunking(ws, cs, maxTokens) && IsChunking(ws, ds, maxTokens)
    ensures cs == ds
    decreases |cs|
  {
    if cs == [] || ds == [] {
      FlattenOfNonEmpty(cs);
      FlattenOfNonEmpty(ds);
    } else {
      FirstChunkNotShorter(ws, cs, ds, maxTokens);
      FirstChunkNotShorter(ws, ds, cs, maxTokens);
      var n := |cs[0]|;
      assert ws == cs[0] + Flatten(cs[1..]);
      assert ws == ds[0] + Flatten(ds[1..]);
      assert cs[0] == ws[..n] == ds[0];
      var rest := ws[n..];
      assert Flatten(cs[1..]) == rest == Flatten(ds[1..]);
      assert IsChunking(rest, cs[1..], maxTokens);
      assert IsChunking(rest, ds[1..], maxTokens);
      ChunkingUnique(rest, cs[1..], ds[1..], maxTokens);
      assert cs == [cs[0]] + cs[1..];
      assert ds == [ds[0]] + ds[1..];
    }
  }

  /** The chunker's output is exactly the one correct chunking of the words. */
  lemma ChunksCharacterized(ws: seq<Word>, cs: seq<seq<Word>>, maxTokens: int)
    ensures IsChunking(ws, cs, maxTokens) <==> cs == Chunks(ws, maxTokens)
  {
    ChunksAreChunking(ws, maxTokens);
    if IsChunking(ws, cs, maxTokens) {
      ChunkingUnique(ws, cs, Chunks(ws, maxTokens), maxTokens);
    }
  }

  // ---------------------------------------------------------------------------
  // The chunker over text
  // ---------------------------------------------------------------------------

  function JoinAll(cs: seq<seq<Word>>): seq<string> {
    seq(|cs|, i requires 0 <= i < |cs| => Join(cs[i]))
  }

  /** The words of each emitted chunk string. */
  function WordsOf(chunks: seq<string>): seq<seq<Word>> {
    seq(|chunks|, i requires 0 <= i < |chunks| => SplitWords(chunks[i]))
  }

  lemma WordsOfJoinAll(cs: seq<seq<Word>>)
    ensures WordsOf(JoinAll(cs)) == cs
  {
    forall i | 0 <= i < |cs|
      ensures WordsOf(JoinAll(cs))[i] == cs[i]
    {
      SplitJoin(cs[i]);
    }
  }

  /** `split_text_into_chunks(text, max_tokens)`. */
  method SplitTextIntoChunks(text: string, maxTokens: int) returns (chunks: seq<string>)
    ensures chunks == JoinAll(Chunks(SplitWords(text), maxTokens))
    ensures IsChunking(SplitWords(text), WordsOf(chunks), maxTokens)
    ensures chunks == [] <==> SplitWords(text) == []
    ensures forall i :: 0 <= i < |chunks| - 1 ==> 4 * |chunks[i]| > 3 * maxTokens
  {
    var words := SplitWords(text);
    chunks := [];
    var current: seq<Word> := [];
    ghost var sealed: seq<seq<Word>> := [];
    for i := 0 to |words|
      invariant chunks == JoinAll(sealed)
      invariant sealed + ChunkFrom(words[i..], current, maxTokens) == Chunks(words, maxTokens)
    {
      assert words[i..][0] == words[i] && words[i..][1..] == words[i + 1..];
      current := current + [words[i]];
      if 4 * |Join(current)| > 3 * maxTokens {
        chunks := chunks + [Join(current)];
        sealed := sealed + [current];
        current := [];
      }
    }
    if current != [] {
      chunks := chunks + [Join(current)];
      sealed := sealed + [current];
    }
    assert sealed == Chunks(words, maxTokens);
    ChunksAreChunking(words, maxTokens);
    WordsOfJoinAll(sealed);
  }
}
