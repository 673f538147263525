/**
 * The uniquing table of statically compiled regular expressions: every
 * distinct (pattern, flags) pair gets the next index, an (offset, length)
 * entry, and its bytecode appended to one shared buffer.
 */
module RegexTable {
  type Byte = x: int | 0 <= x < 256

  const Uint32Modulus: nat := 0x1_0000_0000

  /** A syntax-validated regexp: its source pattern, its flags and its bytecode. */
  datatype CompiledRegExp = CompiledRegExp(pattern: string, flags: string, bytecode: seq<Byte>)

  /** The uniquing key. */
  datatype Key = Key(pattern: string, flags: string)

  function KeyFor(re: CompiledRegExp): Key
  {
    Key(re.pattern, re.flags)
  }

  /** A table entry: where a regexp's bytecode starts in the buffer and how long it is (both uint32). */
  datatype Entry = Entry(offset: nat, length: nat)

  /** The bytecode of the regexps, back to back. */
  function Concat(res: seq<CompiledRegExp>): (buffer: seq<Byte>)
  {
    if res == [] then [] else Concat(res[..|res| - 1]) + res[|res| - 1].bytecode
  }

  /**
   * The relation the table's four containers keep: one entry per regexp,
   * holding the (32-bit) offset and length of its bytecode in the buffer;
   * the map sends each regexp's key to its index and knows no other key.
   */
  predicate TableInvariant(regexps: seq<CompiledRegExp>, entries: seq<Entry>, buffer: seq<Byte>, keysToIndex: map<Key, nat>)
  {
    EntriesInvariant(regexps, entries, buffer) && KeysInvariant(regexps, keysToIndex)
  }

  predicate EntriesInvariant(regexps: seq<CompiledRegExp>, entries: seq<Entry>, buffer: seq<Byte>)
  {
    && |entries| == |regexps|
    && buffer == Concat(regexps)
    && (forall i :: 0 <= i < |regexps| ==>
          entries[i] == Entry(|Concat(regexps[..i])| % Uint32Modulus, |regexps[i].bytecode| % Uint32Modulus))
  }

  predicate KeysInvariant(regexps: seq<CompiledRegExp>, keysToIndex: map<Key, nat>)
  {
    && (forall i :: 0 <= i < |regexps| ==> KeyFor(regexps[i]) in keysToIndex && keysToIndex[KeyFor(regexps[i])] == i)
    && (forall k :: k in keysToIndex ==> keysToIndex[k] < |regexps| && KeyFor(regexps[keysToIndex[k]]) == k)
  }

  lemma {:induction false} ConcatPrefix(res: seq<CompiledRegExp>, i: nat)
    requires i < |res|
    ensures Concat(res[..i + 1]) == Concat(res[..i]) + res[i].bytecode
    ensures |Concat(res[..i])| + |res[i].bytecode| <= |Concat(res)|
    ensures Concat(res)[..|Concat(res[..i + 1])|] == Concat(res[..i + 1])
    decreases |res|
  {
    assert res[..i + 1][..i] == res[..i];
    if i + 1 < |res| {
      ConcatPrefix(res[..|res| - 1], i);
      assert res[..|res| - 1][..i + 1] == res[..i + 1];
      assert res[..|res| - 1][..i] == res[..i];
    } else {
      assert res[..i + 1] == res;
    }
  }

  /**
   * While the buffer stays below 4 GiB the entries tile it: each entry
   * addresses exactly its regexp's bytecode and the next entry starts where
   * it ends.
   */
  lemma EntriesTileBuffer(regexps: seq<CompiledRegExp>, entries: seq<Entry>, buffer: seq<Byte>, i: nat)
    requires EntriesInvariant(regexps, entries, buffer)
    requires |buffer| < Uint32Modulus
    requires i < |regexps|
    ensures entries[i].offset + entries[i].length <= |buffer|
    ensures buffer[entries[i].offset..entries[i].offset + entries[i].length] == regexps[i].bytecode
    ensures i + 1 < |regexps| ==> entries[i + 1].offset == entries[i].offset + entries[i].length
  {
    ConcatPrefix(regexps, i);
    var start, len := |Concat(regexps[..i])|, |regexps[i].bytecode|;
    assert start + len <= |buffer|;
    assert entries[i] == Entry(start % Uint32Modulus, len % Uint32Modulus);
    SmallMod(start);
    SmallMod(len);
    var upTo := Concat(regexps[..i + 1]);
    assert |upTo| == start + len;
    assert buffer[..start + len] == Concat(regexps[..i]) + regexps[i].bytecode;
    assert buffer[start..start + len] == (buffer[..start + len])[start..];
    if i + 1 < |regexps| {
      assert entries[i + 1].offset == |upTo| % Uint32Modulus;
      SmallMod(|upTo|);
    }
  }

  /** EntriesTileBuffer for every entry at once. */
  lemma EntriesAddressBytecode(regexps: seq<CompiledRegExp>, entries: seq<Entry>, buffer: seq<Byte>)
    requires EntriesInvariant(regexps, entries, buffer)
    requires |buffer| < Uint32Modulus
    ensures forall i :: 0 <= i < |entries| ==>
      entries[i].offset + entries[i].length <= |buffer| &&
      buffer[entries[i].offset..entries[i].offset + entries[i].length] == regexps[i].bytecode
  {
    forall i | 0 <= i < |entries|
      ensures entries[i].offset + entries[i].length <= |buffer|
      ensures buffer[entries[i].offset..entries[i].offset + entries[i].length] == regexps[i].bytecode
    {
      EntriesTileBuffer(regexps, entries, buffer, i);
    }
  }

  lemma SmallMod(x: nat)
    requires x < Uint32Modulus
    ensures x % Uint32Modulus == x
  {
  }

  /** Distinct indices hold distinct keys: the table really is uniqued. */
  lemma KeysUnique(regexps: seq<CompiledRegExp>, keysToIndex: map<Key, nat>, i: nat, j: nat)
    requires KeysInvariant(regexps, keysToIndex)
    requires i < j < |regexps|
    ensures KeyFor(regexps[i]) != KeyFor(regexps[j])
  {
  }

  /** Appending a regexp with a new key, its entry and its bytecode keeps the table's relation. */
  lemma AppendKeeps(regexps: seq<CompiledRegExp>, entries: seq<Entry>, buffer: seq<Byte>,
                    keysToIndex: map<Key, nat>, re: CompiledRegExp)
    requires TableInvariant(regexps, entries, buffer, keysToIndex) && KeyFor(re) !in keysToIndex
    ensures TableInvariant(regexps + [re], entries + [Entry(|buffer| % Uint32Modulus, |re.bytecode| % Uint32Modulus)],
                           buffer + re.bytecode, keysToIndex[KeyFor(re) := |regexps|])
  {
    EntriesAppend(regexps, entries, buffer, re);
    KeysAppend(regexps, keysToIndex, re);
  }

  lemma EntriesAppend(regexps: seq<CompiledRegExp>, entries: seq<Entry>, buffer: seq<Byte>, re: CompiledRegExp)
    requires EntriesInvariant(regexps, entries, buffer)
    ensures EntriesInvariant(regexps + [re], entries + [Entry(|buffer| % Uint32Modulus, |re.bytecode| % Uint32Modulus)],
                             buffer + re.bytecode)
  {
    var regexps' := regexps + [re];
    var entries' := entries + [Entry(|buffer| % Uint32Modulus, |re.bytecode| % Uint32Modulus)];
    assert regexps'[..|regexps'| - 1] == regexps;
    forall i | 0 <= i < |regexps'|
      ensures entries'[i] == Entry(|Concat(regexps'[..i])| % Uint32Modulus, |regexps'[i].bytecode| % Uint32Modulus)
    {
      if i < |regexps| {
        assert regexps'[..i] == regexps[..i];
      }
    }
  }

  lemma KeysAppend(regexps: seq<CompiledRegExp>, keysToIndex: map<Key, nat>, re: CompiledRegExp)
    requires KeysInvariant(regexps, keysToIndex) && KeyFor(re) !in keysToIndex
    ensures KeysInvariant(regexps + [re], keysToIndex[KeyFor(re) := |regexps|])
  {
    var regexps' := regexps + [re];
    var keys' := keysToIndex[KeyFor(re) := |regexps|];
    forall i | 0 <= i < |regexps'|
      ensures KeyFor(regexps'[i]) in keys' && keys'[KeyFor(regexps'[i])] == i
    {
      if i < |regexps| {
        assert regexps'[i] == regexps[i];
      }
    }
    forall k | k in keys'
      ensures keys'[k] < |regexps'| && KeyFor(regexps'[keys'[k]]) == k
    {
      if k != KeyFor(re) {
        assert regexps'[keysToIndex[k]] == regexps[keysToIndex[k]];
      }
    }
  }

  class UniquingRegExpTable {
    var regexps: seq<CompiledRegExp>
    var entryList: seq<Entry>
    var bytecodeBuffer: seq<Byte>
    var keysToIndex: map<Key, nat>

    predicate Valid()
      reads this
    {
      TableInvariant(regexps, entryList, bytecodeBuffer, keysToIndex)
    }

    constructor ()
      ensures Valid() && Empty()
      ensures entryList == [] && bytecodeBuffer == [] && keysToIndex == map[]
    {
      regexps, entryList, bytecodeBuffer, keysToIndex := [], [], [], map[];
    }

    /** Whether no regexp has been added. */
    predicate Empty()
      reads this
    {
      regexps == []
    }

    /** getEntryList: while the buffer is below 4 GiB, entry i addresses exactly regexp i's bytecode. */
    function GetEntryList(): (r: seq<Entry>)
      reads this
      ensures Valid() ==> |r| == |regexps|
      ensures Valid() && |bytecodeBuffer| < Uint32Modulus ==>
        forall i :: 0 <= i < |r| ==>
          r[i].offset + r[i].length <= |bytecodeBuffer| &&
          bytecodeBuffer[r[i].offset..r[i].offset + r[i].length] == regexps[i].bytecode
    {
      if Valid() && |bytecodeBuffer| < Uint32Modulus then
        EntriesAddressBytecode(regexps, entryList, bytecodeBuffer);
        entryList
      else entryList
    }

    /** getBytecodeBuffer: the bytecode of every regexp, back to back in index order. */
    function GetBytecodeBuffer(): (r: seq<Byte>)
      reads this
      ensures Valid() ==> r == Concat(regexps)
    {
      bytecodeBuffer
    }

    /**
     * addRegExp: a known (pattern, flags) key returns its index and changes
     * nothing; a new one gets the next index, an entry at the end of the
     * buffer, and its bytecode appended. More than 2^32 regexps is a fatal
     * error.
     */
    method AddRegExp(re: CompiledRegExp) returns (index: nat)
      requires Valid()
      requires |regexps| < Uint32Modulus
      modifies this
      ensures Valid() && !Empty()
      ensures index < |regexps| && KeyFor(regexps[index]) == KeyFor(re)
      ensures KeyFor(re) in old(keysToIndex) ==>
        index == old(keysToIndex[KeyFor(re)])
        && regexps == old(regexps) && entryList == old(entryList)
        && bytecodeBuffer == old(bytecodeBuffer) && keysToIndex == old(keysToIndex)
      ensures KeyFor(re) !in old(keysToIndex) ==>
        index == old(|regexps|)
        && regexps == old(regexps) + [re]
        && entryList == old(entryList) + [Entry(old(|bytecodeBuffer|) % Uint32Modulus, |re.bytecode| % Uint32Modulus)]
        && bytecodeBuffer == old(bytecodeBuffer) + re.bytecode
        && keysToIndex == old(keysToIndex)[KeyFor(re) := index]
    {
      if KeyFor(re) in keysToIndex {
        index := keysToIndex[KeyFor(re)];
        return;
      }
      index := |regexps|;
      AppendKeeps(regexps, entryList, bytecodeBuffer, keysToIndex, re);
      regexps := regexps + [re];
      entryList := entryList + [Entry(|bytecodeBuffer| % Uint32Modulus, |re.bytecode| % Uint32Modulus)];
      bytecodeBuffer := bytecodeBuffer + re.bytecode;
      keysToIndex := keysToIndex[KeyFor(re) := index];
    }
  }
}
