/**
 Overlapping chunks of page texts, from integrations/zotero_lightrag/publish_corpus.py. The texts are cleaned already;
 sizes and offsets count characters.
 */
module Chunking {
  import opened Seqs
  import opened Arithmetic
  import opened Text

  const CHUNK_SIZE := 1400
  const CHUNK_OVERLAP := 220

  // How far the next chunk starts behind this one: never less than one character.
  function Stride(size: nat, overlap: nat): (stride: nat)
    requires size > 0
    ensures 1 <= stride <= size
  {
    if overlap < size then size - overlap else 1
  }

  function Chunks(text: string, size: nat, stride: nat): seq<string>
    requires 1 <= stride <= size
    decreases |text|
  {
    if text == "" then []
    else if |text| <= size then [text]
    else [text[..size]] + Chunks(text[stride..], size, stride)
  }

  method ChunkText(text: string, size: nat, overlap: nat) returns (out: seq<string>)
    requires size > 0
    ensures out == Chunks(text, size, Stride(size, overlap))
  {
    ghost var stride := Stride(size, overlap);
    out := [];
    var cursor := 0;
    while text != "" && cursor < |text|
      invariant text != "" ==> cursor < |text|
      invariant text == "" ==> cursor == 0
      invariant out + Chunks(text[cursor..], size, stride) == Chunks(text, size, stride)
      decreases |text| - cursor
    {
      var end := if |text| < cursor + size then |text| else cursor + size;
      assert text[cursor..end] == text[cursor..][..end - cursor];
      if end == |text| {
        assert text[cursor..end] == text[cursor..];
        return out + [text[cursor..end]];
      }
      assert text[cursor..][stride..] == text[cursor + stride..];
      Assoc(out, [text[cursor..end]], Chunks(text[cursor + stride..], size, stride));
      out := out + [text[cursor..end]];
      cursor := if cursor + 1 < end - overlap then end - overlap else cursor + 1;
    }
  }

  // Where the chunks lie in the text: at multiples of the stride, all of full size but the last, which reaches the end.
  lemma {:induction false} ChunkAt(text: string, size: nat, stride: nat, i: nat)
    requires 1 <= stride <= size && i < |Chunks(text, size, stride)|
    ensures var chunks, start := Chunks(text, size, stride), i * stride;
            && start < |text|
            && (if i < |chunks| - 1 then start + size < |text| && chunks[i] == text[start..start + size]
                else |text| <= start + size && chunks[i] == text[start..])
    decreases i
  {
    if |text| > size && i > 0 {
      var rest := Chunks(text[stride..], size, stride);
      assert Chunks(text, size, stride) == [text[..size]] + rest;
      ChunkAt(text[stride..], size, stride, i - 1);
      Shift(i, stride);
      var before := (i - 1) * stride;
      assert text[stride..][before..] == text[before + stride..];
      assert before + size < |text[stride..]| ==> text[stride..][before..before + size] == text[before + stride..before + stride + size];
    } else {
      assert i * stride == 0;
      assert |text| > size ==> Chunks(text[stride..], size, stride) != [];
    }
  }

  lemma Shift(i: nat, stride: nat)
    requires i > 0
    ensures (i - 1) * stride + stride == i * stride
  {
  }

  // Neighbours share exactly the characters from the start of the later one to the end of the earlier one.
  lemma NeighboursOverlap(text: string, size: nat, stride: nat, i: nat)
    requires 1 <= stride <= size && i + 1 < |Chunks(text, size, stride)|
    ensures var a, b, shared := Chunks(text, size, stride)[i], Chunks(text, size, stride)[i + 1], size - stride;
            && |a| == size && shared < |b| <= size
            && a[stride..] == b[..shared]
  {
    ChunkAt(text, size, stride, i);
    ChunkAt(text, size, stride, i + 1);
    Shift(i + 1, stride);
    var start := i * stride;
    var a, b := Chunks(text, size, stride)[i], Chunks(text, size, stride)[i + 1];
    assert a == text[start..start + size] && b == text[start + stride..start + stride + |b|];
    SlicesOverlap(text, start, stride, size, |b|, a, b);
  }

  lemma SlicesOverlap(text: string, start: nat, stride: nat, size: nat, length: nat, a: string, b: string)
    requires stride <= size <= stride + length && start + stride + length <= |text|
    requires a == text[start..start + size] && b == text[start + stride..start + stride + length]
    ensures a[stride..] == b[..size - stride]
  {
  }

  // The chunks with the first characters of each dropped, put together.
  function Rebuild(chunks: seq<string>, shared: nat): string {
    if chunks == [] then "" else Unshared(chunks[0], shared) + Rebuild(chunks[1..], shared)
  }

  function Unshared(chunk: string, shared: nat): string {
    if |chunk| < shared then "" else chunk[shared..]
  }

  lemma {:induction false} RestRebuilds(text: string, size: nat, stride: nat)
    requires 1 <= stride <= size && size - stride < |text|
    ensures Rebuild(Chunks(text, size, stride), size - stride) == text[size - stride..]
    decreases |text|
  {
    var shared := size - stride;
    if |text| > size {
      var rest := Chunks(text[stride..], size, stride);
      RestRebuilds(text[stride..], size, stride);
      assert ([text[..size]] + rest)[1..] == rest;
      SuffixOfSuffix(text, stride, size);
      assert text[..size][shared..] + text[size..] == text[shared..];
    } else {
      assert [text][1..] == [];
      assert text[shared..] + "" == text[shared..];
    }
  }

  lemma SuffixOfSuffix(text: string, i: nat, j: nat)
    requires i <= j <= |text|
    ensures text[i..][j - i..] == text[j..] && text[..j] + text[j..] == text
  {
  }

  // Nothing is lost and nothing comes twice: the first chunk followed by what each other one adds is the text.
  lemma ChunksRebuildText(text: string, size: nat, stride: nat)
    requires 1 <= stride <= size && text != ""
    ensures var chunks := Chunks(text, size, stride);
            chunks != [] && chunks[0] + Rebuild(chunks[1..], size - stride) == text
  {
    if |text| > size {
      var rest := Chunks(text[stride..], size, stride);
      RestRebuilds(text[stride..], size, stride);
      assert ([text[..size]] + rest)[1..] == rest;
      SuffixOfSuffix(text, stride, size);
    } else {
      assert [text][1..] == [];
    }
  }

  // One chunk per stride that starts before the last full size.
  lemma {:induction false} ChunkCount(text: string, size: nat, stride: nat)
    requires 1 <= stride <= size
    ensures |Chunks(text, size, stride)| == if text == "" then 0 else if |text| <= size then 1 else 1 + CeilDiv(|text| - size, stride)
    decreases |text|
  {
    if |text| > size {
      ChunkCount(text[stride..], size, stride);
      var over := |text| - size;
      if over <= stride {
        CeilDivOne(over, stride);
      } else {
        CeilDivStep(over, stride);
      }
    }
  }

  // The chunks for a size and an overlap: each begins the overlap before the end of the one before, or one character
  // after its beginning when the overlap is no smaller than the size.
  lemma ChunksOverlap(text: string, size: nat, overlap: nat, i: nat)
    requires size > 0 && i < |Chunks(text, size, Stride(size, overlap))|
    ensures var chunks := Chunks(text, size, Stride(size, overlap));
            var start := if overlap < size then i * (size - overlap) else i;
            && start < |text|
            && (if i < |chunks| - 1 then start + size < |text| && chunks[i] == text[start..start + size]
                else |text| <= start + size && chunks[i] == text[start..])
            && (i < |chunks| - 1 && overlap < size ==> |chunks[i]| == size && overlap < |chunks[i + 1]| && chunks[i][size - overlap..] == chunks[i + 1][..overlap])
  {
    var stride := Stride(size, overlap);
    ChunkAt(text, size, stride, i);
    assert i * 1 == i;
    if i + 1 < |Chunks(text, size, stride)| {
      NeighboursOverlap(text, size, stride, i);
    }
  }

  // ----- Pages -----

  datatype PageChunk = PageChunk(page: nat, index: nat, body: string)

  function SplitPages(text: string): (pages: seq<string>)
    ensures |pages| > 0
  {
    SplitOn(text, '\U{C}')
  }

  function Numbered(page: nat, index: nat, bodies: seq<string>): (out: seq<PageChunk>)
    ensures |out| == |bodies|
    ensures forall i :: 0 <= i < |out| ==> out[i] == PageChunk(page, index + i, bodies[i])
    decreases |bodies|
  {
    if bodies == [] then [] else [PageChunk(page, index, bodies[0])] + Numbered(page, index + 1, bodies[1..])
  }

  function ChunksOfPages(pages: seq<string>, first: nat, clean: string -> string): seq<PageChunk>
    decreases |pages|
  {
    if pages == [] then []
    else Numbered(first, 0, ChunksOfPage(pages[0], clean)) + ChunksOfPages(pages[1..], first + 1, clean)
  }

  function ChunksOfPage(page: string, clean: string -> string): seq<string> {
    Chunks(clean(page), CHUNK_SIZE, Stride(CHUNK_SIZE, CHUNK_OVERLAP))
  }

  method PageChunks(text: string, clean: string -> string) returns (out: seq<PageChunk>)
    ensures out == ChunksOfPages(SplitPages(text), 0, clean)
  {
    var pages := SplitPages(text);
    out := [];
    assert pages[0..] == pages;
    for page := 0 to |pages|
      invariant out + ChunksOfPages(pages[page..], page, clean) == ChunksOfPages(pages, 0, clean)
    {
      var bodies := ChunkText(clean(pages[page]), CHUNK_SIZE, CHUNK_OVERLAP);
      var entries := Number(page, bodies);
      assert pages[page..][1..] == pages[page + 1..];
      Assoc(out, entries, ChunksOfPages(pages[page + 1..], page + 1, clean));
      out := out + entries;
    }
    assert out + [] == out;
  }

  method Number(page: nat, bodies: seq<string>) returns (out: seq<PageChunk>)
    ensures out == Numbered(page, 0, bodies)
  {
    out := [];
    for index := 0 to |bodies|
      invariant |out| == index && forall i :: 0 <= i < index ==> out[i] == PageChunk(page, i, bodies[i])
    {
      out := out + [PageChunk(page, index, bodies[index])];
    }
  }

  lemma {:induction false} LaterPages(pages: seq<string>, first: nat, clean: string -> string, k: nat)
    requires k < |ChunksOfPages(pages, first, clean)|
    ensures first <= ChunksOfPages(pages, first, clean)[k].page < first + |pages|
    decreases |pages|
  {
    var head := Numbered(first, 0, ChunksOfPage(pages[0], clean));
    if k >= |head| {
      LaterPages(pages[1..], first + 1, clean, k - |head|);
    }
  }

  // Keys come in strictly increasing lexicographic order, so no two chunks share one.
  lemma {:induction false} KeysIncrease(pages: seq<string>, first: nat, clean: string -> string, i: nat, j: nat)
    requires i < j < |ChunksOfPages(pages, first, clean)|
    ensures var a, b := ChunksOfPages(pages, first, clean)[i], ChunksOfPages(pages, first, clean)[j];
            a.page < b.page || (a.page == b.page && a.index < b.index)
    decreases |pages|
  {
    var head := Numbered(first, 0, ChunksOfPage(pages[0], clean));
    if j >= |head| {
      LaterPages(pages[1..], first + 1, clean, j - |head|);
      if i >= |head| {
        KeysIncrease(pages[1..], first + 1, clean, i - |head|, j - |head|);
      }
    }
  }

  function OfPage(page: nat): PageChunk -> bool {
    (c: PageChunk) => c.page == page
  }

  lemma {:induction false} OnlyPage(page: nat, index: nat, bodies: seq<string>, p: nat)
    ensures Filter(Numbered(page, index, bodies), OfPage(p)) == if p == page then Numbered(page, index, bodies) else []
    decreases |bodies|
  {
    if bodies != [] {
      OnlyPage(page, index + 1, bodies[1..], p);
      var rest := Numbered(page, index + 1, bodies[1..]);
      assert ([PageChunk(page, index, bodies[0])] + rest)[1..] == rest;
    }
  }

  // The entries of a page are the chunks of that page's text, numbered from 0; there are no others.
  lemma {:induction false} EntriesOfPage(pages: seq<string>, first: nat, clean: string -> string, p: nat)
    ensures Filter(ChunksOfPages(pages, first, clean), OfPage(p)) ==
            if first <= p < first + |pages| then Numbered(p, 0, ChunksOfPage(pages[p - first], clean)) else []
    decreases |pages|
  {
    if pages != [] {
      var head, rest := Numbered(first, 0, ChunksOfPage(pages[0], clean)), ChunksOfPages(pages[1..], first + 1, clean);
      EntriesOfPage(pages[1..], first + 1, clean, p);
      FilterAppend(head, rest, OfPage(p));
      OnlyPage(first, 0, ChunksOfPage(pages[0], clean), p);
      assert head + [] == head;
      assert p > first ==> p - first - 1 < |pages[1..]| ==> pages[1..][p - first - 1] == pages[p - first];
    }
  }

  // Each page is cut at multiples of 1180 characters into chunks of 1400, so that neighbours share 220.
  lemma PageIsCut(page: string, clean: string -> string, i: nat)
    requires i < |ChunksOfPage(page, clean)|
    ensures var chunks, text, start := ChunksOfPage(page, clean), clean(page), 1180 * i;
            && start < |text|
            && (if i < |chunks| - 1 then start + 1400 < |text| && chunks[i] == text[start..start + 1400] && 220 < |chunks[i + 1]| && chunks[i][1180..] == chunks[i + 1][..220]
                else |text| <= start + 1400 && chunks[i] == text[start..])
  {
    ChunksOverlap(clean(page), CHUNK_SIZE, CHUNK_OVERLAP, i);
  }
}
