/** Splitting a server-sent event stream into blocks as its text arrives. */
module SseBlocks {
  import opened Prelude

  const BLANK_LINE: string := "\n\n"

  predicate BlankAt(text: string, i: nat) {
    i + 2 <= |text| && text[i] == '\n' && text[i + 1] == '\n'
  }

  /** buffer.indexOf('\n\n'). */
  function IndexOf(text: string, from: nat): (found: Option<nat>)
    ensures found.Some? ==> from <= found.value && BlankAt(text, found.value)
    ensures found.Some? ==> forall i: nat :: from <= i < found.value ==> !BlankAt(text, i)
    ensures found.None? ==> forall i: nat :: from <= i ==> !BlankAt(text, i)
    decreases |text| - from
  {
    if from + 2 > |text| then None else if BlankAt(text, from) then Some(from) else IndexOf(text, from + 1)
  }

  /** The blocks of a text and what is left behind the last blank line. */
  datatype Parts = Parts(blocks: seq<string>, rest: string)

  /** Split at the leftmost blank line, again and again. */
  function Split(text: string): Parts
    decreases |text|
  {
    var at := IndexOf(text, 0);
    if at.None? then Parts([], text) else
    var more := Split(text[at.value + 2..]);
    Parts([text[..at.value]] + more.blocks, more.rest)
  }

  function Join(parts: Parts): string
    decreases |parts.blocks|
  {
    if parts.blocks == [] then parts.rest
    else parts.blocks[0] + BLANK_LINE + Join(Parts(parts.blocks[1..], parts.rest))
  }

  ghost predicate NoBlankLine(text: string) {
    forall before, after :: before + BLANK_LINE + after != text
  }

  lemma NoneMeans(text: string)
    requires forall i: nat :: !BlankAt(text, i)
    ensures NoBlankLine(text)
  {
    forall before, after
      ensures before + BLANK_LINE + after != text
    {
      assert !BlankAt(text, |before|);
    }
  }

  /** Splitting loses nothing, and leaves no blank line in any block or in the rest. */
  lemma {:induction false} SplitJoins(text: string)
    ensures Join(Split(text)) == text
    ensures NoBlankLine(Split(text).rest)
    ensures forall b :: b in Split(text).blocks ==> NoBlankLine(b)
    decreases |text|
  {
    var at := IndexOf(text, 0);
    if at.Some? {
      var first, tail := text[..at.value], text[at.value + 2..];
      SplitJoins(tail);
      var parts := Split(text);
      assert parts.blocks[0] == first && parts.blocks[1..] == Split(tail).blocks;
      assert Parts(parts.blocks[1..], parts.rest) == Split(tail);
      assert text == first + BLANK_LINE + tail;
      forall i: nat
        ensures !BlankAt(first, i)
      {
        assert BlankAt(first, i) ==> BlankAt(text, i);
      }
      NoneMeans(first);
    } else {
      NoneMeans(text);
    }
  }

  lemma IndexOfExtends(text: string, more: string)
    requires IndexOf(text, 0).Some?
    ensures IndexOf(text + more, 0) == IndexOf(text, 0)
  {
    var at := IndexOf(text, 0).value;
    assert BlankAt(text + more, at);
    assert forall i: nat :: i < at ==> (BlankAt(text + more, i) <==> BlankAt(text, i));
  }

  /** These blocks, then those of `parts`. */
  function Behind(blocks: seq<string>, parts: Parts): Parts {
    Parts(blocks + parts.blocks, parts.rest)
  }

  lemma BehindBehind(a: seq<string>, b: seq<string>, parts: Parts)
    ensures Behind(a, Behind(b, parts)) == Behind(a + b, parts) && Behind([], parts) == parts
  {
    assert a + (b + parts.blocks) == (a + b) + parts.blocks;
    assert [] + parts.blocks == parts.blocks;
  }

  lemma SplitFirst(text: string, at: nat)
    requires IndexOf(text, 0) == Some(at)
    ensures Split(text) == Behind([text[..at]], Split(text[at + 2..]))
  {}

  /** Text that arrives later only continues the rest. */
  lemma {:induction false} SplitContinues(text: string, more: string)
    ensures Split(text + more) == Behind(Split(text).blocks, Split(Split(text).rest + more))
    decreases |text|
  {
    var at := IndexOf(text, 0);
    if at.Some? {
      var first, tail := text[..at.value], text[at.value + 2..];
      IndexOfExtends(text, more);
      SplitFirst(text, at.value);
      SplitFirst(text + more, at.value);
      SplitContinues(tail, more);
      assert (text + more)[at.value + 2..] == tail + more && (text + more)[..at.value] == first;
      BehindBehind([first], Split(tail).blocks, Split(Split(tail).rest + more));
    } else {
      BehindBehind([], [], Split(text + more));
    }
  }

  /** The read loop of `drainSseStream`: whatever the reads, the blocks handed on and
      the text left over are those of the whole stream. */
  method DrainSseStream(received: seq<string>) returns (blocks: seq<string>, buffer: string)
    ensures Parts(blocks, buffer) == Split(Flatten(received))
  {
    blocks, buffer := [], "";
    for i := 0 to |received|
      invariant Parts(blocks, buffer) == Split(Flatten(received[..i]))
    {
      ghost var text := Flatten(received[..i]);
      FlattenConcat(received[..i], [received[i]]);
      FlattenOne(received[i]);
      assert received[..i + 1] == received[..i] + [received[i]];
      SplitContinues(text, received[i]);
      ghost var before := blocks;
      buffer := buffer + received[i];
      ghost var arrived := Split(buffer);
      var blockEnd := IndexOf(buffer, 0);
      while blockEnd.Some?
        invariant blockEnd == IndexOf(buffer, 0)
        invariant Behind(before, arrived) == Behind(blocks, Split(buffer))
        decreases |buffer|
      {
        SplitFirst(buffer, blockEnd.value);
        BehindBehind(blocks, [buffer[..blockEnd.value]], Split(buffer[blockEnd.value + 2..]));
        blocks := blocks + [buffer[..blockEnd.value]];
        buffer := buffer[blockEnd.value + 2..];
        blockEnd := IndexOf(buffer, 0);
      }
    }
    assert received[..|received|] == received;
  }
}
