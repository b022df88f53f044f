/**
 `skip_trailing_space` of m_string.h in both its forms: eight bytes at a time, and the three zones for sparc. Both find
 what a byte-by-byte scan finds.
 */
module TrailingSpace {
  import opened ByteOrder

  const SPACE: Byte := 0x20

  // -------------------------------------------------------------- reference

  /** The byte loop that both forms end with. */
  function TrimmedEnd(text: seq<Byte>, end: nat): (r: nat)
    requires end <= |text|
    ensures r <= end
  {
    if end > 0 && text[end - 1] == SPACE then TrimmedEnd(text, end - 1) else end
  }

  ghost predicate AllSpaces(bytes: seq<Byte>) {
    forall k :: 0 <= k < |bytes| ==> bytes[k] == SPACE
  }

  /** Where the trailing spaces begin, said of the text alone. */
  ghost predicate TrailStarts(text: seq<Byte>, r: nat) {
    r <= |text| && AllSpaces(text[r..]) && (r > 0 ==> text[r - 1] != SPACE)
  }

  lemma {:induction false} TrimmedEndIsTheTrail(text: seq<Byte>, end: nat)
    requires end <= |text| && AllSpaces(text[end..])
    ensures TrailStarts(text, TrimmedEnd(text, end))
  {
    if end > 0 && text[end - 1] == SPACE {
      assert text[end - 1..] == [text[end - 1]] + text[end..];
      TrimmedEndIsTheTrail(text, end - 1);
    }
  }

  lemma {:induction false} TrailIsUnique(text: seq<Byte>, r: nat, s: nat)
    requires TrailStarts(text, r) && TrailStarts(text, s)
    ensures r == s
  {
    SpacesFrom(text, r);
    SpacesFrom(text, s);
  }

  lemma {:induction false} SpacesFrom(text: seq<Byte>, r: nat)
    requires r <= |text| && AllSpaces(text[r..])
    ensures forall k :: r <= k < |text| ==> text[k] == SPACE
  {
    forall k | r <= k < |text| ensures text[k] == SPACE {
      assert text[r..][k - r] == text[k];
    }
  }

  /** Dropping a run of spaces from the end does not change where the trail starts. */
  lemma {:induction false} TrimSkips(text: seq<Byte>, end: nat, n: nat)
    requires n <= end <= |text| && AllSpaces(text[end - n..end])
    ensures TrimmedEnd(text, end) == TrimmedEnd(text, end - n)
  {
    if n > 0 {
      var run := text[end - n..end];
      assert run[n - 1] == text[end - 1];
      assert text[end - n..end - 1] == run[..n - 1];
      TrimSkips(text, end - 1, n - 1);
    }
  }

  // ------------------------------------------------------------- whole words

  /** The number whose n bytes are all spaces, the same in either byte order. */
  function SpaceWord(n: nat): nat {
    if n == 0 then 0 else SPACE + 256 * SpaceWord(n - 1)
  }

  /** What a sparc reads from these bytes: the high byte comes first. */
  function BigEndian(bytes: seq<Byte>): nat {
    if bytes == [] then 0 else bytes[|bytes| - 1] + 256 * BigEndian(bytes[..|bytes| - 1])
  }

  lemma {:induction false} LittleWordOfSpaces(bytes: seq<Byte>)
    ensures LittleEndian(bytes) == SpaceWord(|bytes|) <==> AllSpaces(bytes)
  {
    if bytes != [] {
      LittleWordOfSpaces(bytes[1..]);
      assert bytes == [bytes[0]] + bytes[1..];
    }
  }

  lemma {:induction false} BigWordOfSpaces(bytes: seq<Byte>)
    ensures BigEndian(bytes) == SpaceWord(|bytes|) <==> AllSpaces(bytes)
  {
    if bytes != [] {
      var last := |bytes| - 1;
      BigWordOfSpaces(bytes[..last]);
      assert bytes == bytes[..last] + [bytes[last]];
    }
  }

  lemma {:induction false} SpaceWords()
    ensures SpaceWord(4) == 0x2020_2020 && SpaceWord(8) == 0x2020_2020_2020_2020
  {
    assert SpaceWord(3) == SPACE + 256 * SpaceWord(2) == 0x20_2020;
    assert SpaceWord(6) == SPACE + 256 * SpaceWord(5) == 0x2020_2020_2020;
  }

  // ------------------------------------------------------ eight bytes a step

  method SkipTrailingSpace(text: seq<Byte>) returns (end: nat)
    ensures TrailStarts(text, end)
    ensures end == TrimmedEnd(text, |text|)
  {
    end := |text|;
    SpaceWords();
    while end >= 8
      invariant end <= |text|
      invariant TrimmedEnd(text, end) == TrimmedEnd(text, |text|)
    {
      ghost var word := text[end - 8..end];
      LoadsAreLittleEndian(word);
      LittleWordOfSpaces(word);
      if Uint8korr(text[end - 8..end]) != 0x2020_2020_2020_2020 {
        break;
      }
      TrimSkips(text, end, 8);
      end := end - 8;
    }
    while end > 0 && text[end - 1] == SPACE
      invariant end <= |text|
      invariant TrimmedEnd(text, end) == TrimmedEnd(text, |text|)
    {
      end := end - 1;
    }
    TrimmedEndIsTheTrail(text, |text|);
  }

  // ------------------------------------------------- three zones, for sparc

  /** An address rounded down, and up, to whole words. */
  function RoundedDown(address: nat, size: nat): (r: nat)
    requires size > 0
    ensures r <= address < r + size && r % size == 0
  {
    RoundedDownIsAMultiple(address, size);
    address / size * size
  }

  lemma {:induction false} RoundedDownIsAMultiple(address: nat, size: nat)
    requires size > 0
    ensures var r := address / size * size; 0 <= r <= address < r + size && r % size == 0
  {
    var q := address / size;
    assert address == size * q + address % size;
    assert q * size == size * q + 0;
    RemainderIs(q * size, size, q, 0);
  }

  function RoundedUp(address: nat, size: nat): (r: nat)
    requires size > 0
    ensures address <= r < address + size && r % size == 0
  {
    RoundedDown(address + size - 1, size)
  }

  lemma {:induction false} OneWordBack(address: nat, from: nat, size: nat)
    requires size == 4 || size == 8
    requires address % size == 0 && from % size == 0 && from < address
    ensures from + size <= address && (address - size) % size == 0
  {
  }

  /** A word read at an address is aligned and lies in the buffer that starts at ptr. */
  ghost predicate SafeRead(address: nat, size: nat, ptr: nat, len: nat)
    requires size > 0
  {
    address % size == 0 && ptr <= address && address + size <= ptr + len
  }

  ghost predicate SafeReads(addresses: seq<nat>, size: nat, ptr: nat, len: nat)
    requires size > 0
  {
    forall k :: 0 <= k < |addresses| ==> SafeRead(addresses[k], size, ptr, len)
  }

  lemma {:induction false} ReadOneMore(
      words: seq<nat>, address: nat, size: nat, ptr: nat, len: nat) returns (more: seq<nat>)
    requires size > 0 && SafeReads(words, size, ptr, len) && SafeRead(address, size, ptr, len)
    ensures more == words + [address] && SafeReads(more, size, ptr, len)
  {
    more := words + [address];
  }

  lemma {:induction false} WordSkips(text: seq<Byte>, at: nat, size: nat)
    requires size <= at <= |text| && BigEndian(text[at - size..at]) == SpaceWord(size)
    ensures TrimmedEnd(text, at) == TrimmedEnd(text, at - size)
  {
    BigWordOfSpaces(text[at - size..at]);
    TrimSkips(text, at, size);
  }

  /** The middle zone, from its last word down. */
  method SkipWords(text: seq<Byte>, ptr: nat, size: nat, spaceInt: nat, startWords: nat, endWords: nat)
    returns (end: nat, ghost words: seq<nat>)
    requires size == 4 || size == 8
    requires spaceInt == SpaceWord(size)
    requires ptr <= startWords <= endWords <= ptr + |text| && startWords % size == 0 && endWords % size == 0
    ensures ptr <= end <= endWords && TrimmedEnd(text, end - ptr) == TrimmedEnd(text, endWords - ptr)
    ensures SafeReads(words, size, ptr, |text|)
  {
    end, words := endWords, [];
    while end > startWords
      invariant startWords <= end <= endWords
      invariant end % size == 0
      invariant TrimmedEnd(text, end - ptr) == TrimmedEnd(text, endWords - ptr)
      invariant SafeReads(words, size, ptr, |text|)
    {
      OneWordBack(end, startWords, size);
      var at := end - ptr;
      words := ReadOneMore(words, end - size, size, ptr, |text|);
      if BigEndian(text[at - size..at]) != spaceInt {
        break;
      }
      WordSkips(text, at, size);
      end := end - size;
    }
  }

  /**
   The text lies at address ptr; end, end_words and start_words are addresses, as in the source. words lists the
   addresses that are read as whole words.
   */
  method SkipTrailingSpaceSparc(text: seq<Byte>, ptr: nat, size: nat) returns (skipped: nat, ghost words: seq<nat>)
    requires size == 4 || size == 8
    ensures TrailStarts(text, skipped)
    ensures skipped == TrimmedEnd(text, |text|)
    ensures SafeReads(words, size, ptr, |text|)
  {
    var spaceInt := if size == 4 then 0x2020_2020 else 0x2020_2020_2020_2020;
    SpaceWords();
    var end := ptr + |text|;
    words := [];
    if |text| > 20 {
      var endWords, startWords := RoundedDown(end, size), RoundedUp(ptr, size);
      assert endWords > ptr;
      while end > endWords && text[end - 1 - ptr] == SPACE
        invariant ptr < endWords <= end <= ptr + |text|
        invariant TrimmedEnd(text, end - ptr) == TrimmedEnd(text, |text|)
      {
        end := end - 1;
      }
      if text[end - 1 - ptr] == SPACE && startWords < endWords {
        end, words := SkipWords(text, ptr, size, spaceInt, startWords, end);
      }
    }
    while end > ptr && text[end - 1 - ptr] == SPACE
      invariant ptr <= end <= ptr + |text|
      invariant TrimmedEnd(text, end - ptr) == TrimmedEnd(text, |text|)
    {
      end := end - 1;
    }
    skipped := end - ptr;
    TrimmedEndIsTheTrail(text, |text|);
  }
}
