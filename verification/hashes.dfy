/** Reading the hash corpus: `get_all_hashes` (autoCrack.py:80-90). */
module HashLoader {
  import opened Wrappers
  import opened PyStr
  import opened Seqs

  /** A corpus line after `strip()`, unless that is empty or starts with `#`. */
  function HashOfLine(line: string): (h: Option<string>)
  {
    var t := Strip(line);
    if t != [] && t[0] != '#' then Some(t) else None
  }

  /** The hashes of a corpus given as the lines its file yields, in file order. */
  function HashesOf(lines: seq<string>): seq<string> {
    FilterMap(HashOfLine, lines)
  }

  /**
   * `get_all_hashes`: the loop over the file's lines. Reading the file is not
   * modelled; the lines come in as they were read (each with its line end).
   */
  method GetAllHashes(lines: seq<string>) returns (hashes: seq<string>)
    ensures hashes == HashesOf(lines)
    ensures forall k :: 0 <= k < |hashes| ==> hashes[k] != [] && hashes[k][0] != '#' && IsStripped(hashes[k])
  {
    hashes := [];
    for i := 0 to |lines|
      invariant hashes == FilterMap(HashOfLine, lines[..i])
    {
      FilterMapSnoc(HashOfLine, lines, i);
      var h := Strip(lines[i]);
      if h != [] && h[0] != '#' {
        assert HashOfLine(lines[i]) == Some(h);
        assert Image(HashOfLine(lines[i])) == [h];
        hashes := hashes + [h];
      } else {
        assert HashOfLine(lines[i]) == None;
        assert Image(HashOfLine(lines[i])) == [];
      }
    }
    assert lines[..|lines|] == lines;
    forall k | 0 <= k < |hashes|
      ensures hashes[k] != [] && hashes[k][0] != '#' && IsStripped(hashes[k])
    {
      HashesMember(lines, hashes[k]);
    }
  }

  /** A string is among the hashes exactly when some line strips to it and it is neither empty nor a comment. */
  lemma HashesMember(lines: seq<string>, h: string)
    ensures h in HashesOf(lines) <==>
      h != [] && h[0] != '#' && exists i :: 0 <= i < |lines| && Strip(lines[i]) == h
  {
    FilterMapMember(HashOfLine, lines, h);
    if h != [] && h[0] != '#' {
      if i :| 0 <= i < |lines| && Strip(lines[i]) == h {
        assert HashOfLine(lines[i]) == Some(h);
      }
    }
  }

  /** Duplicates and order survive: the hashes of two runs of lines, one after the other. */
  lemma HashesConcat(a: seq<string>, b: seq<string>)
    ensures HashesOf(a + b) == HashesOf(a) + HashesOf(b)
  {
    FilterMapConcat(HashOfLine, a, b);
  }

  /** One line yields its stripped text or nothing. */
  lemma HashesOfOneLine(line: string)
    ensures HashesOf([line]) == if Strip(line) != [] && Strip(line)[0] != '#' then [Strip(line)] else []
  {
    assert [line][..0] == [];
  }
}
