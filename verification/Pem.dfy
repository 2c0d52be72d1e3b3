/** Splitting a PEM certificate chain and joining it again. */
module Pem {
  import opened Wrappers

  const BEGIN_MARK := "-----BEGIN CERTIFICATE-----"
  const END_MARK := "-----END CERTIFICATE-----"

  /** The characters `trim` removes: those with the Unicode property White_Space. */
  predicate IsSpace(c: char) {
    var u := c as int;
    || 0x9 <= u <= 0xD || u == 0x20 || u == 0x85 || u == 0xA0 || u == 0x1680
    || 0x2000 <= u <= 0x200A || u == 0x2028 || u == 0x2029 || u == 0x202F || u == 0x205F || u == 0x3000
  }

  function TrimStart(s: string): string {
    if s != [] && IsSpace(s[0]) then TrimStart(s[1..]) else s
  }

  function TrimEnd(s: string): string {
    if s != [] && IsSpace(s[|s| - 1]) then TrimEnd(s[..|s| - 1]) else s
  }

  function Trim(s: string): string { TrimEnd(TrimStart(s)) }

  predicate OccursAt(s: string, pattern: string, i: nat) {
    i + |pattern| <= |s| && s[i..i + |pattern|] == pattern
  }

  ghost predicate Occurs(s: string, pattern: string) {
    exists i: nat :: OccursAt(s, pattern, i)
  }

  /** The first occurrence at or after position i. */
  function Find(s: string, pattern: string, i: nat): (r: Option<nat>)
    ensures r.Some? ==> i <= r.value && OccursAt(s, pattern, r.value)
    ensures forall j: nat | i <= j && (r.Some? ==> j < r.value) :: !OccursAt(s, pattern, j)
    decreases |s| - i
  {
    if i + |pattern| > |s| then None
    else if OccursAt(s, pattern, i) then Some(i)
    else Find(s, pattern, i + 1)
  }

  predicate Contains(s: string, pattern: string)
    ensures Contains(s, pattern) <==> Occurs(s, pattern)
  {
    Find(s, pattern, 0).Some?
  }

  /** The pieces between successive non-overlapping occurrences of the pattern. */
  function Split(s: string, pattern: string): seq<string>
    requires pattern != []
    decreases |s|
  {
    match Find(s, pattern, 0)
    case None => [s]
    case Some(i) => [s[..i]] + Split(s[i + |pattern|..], pattern)
  }

  function Rewrapped(block: string): string { block + ['\n'] + END_MARK + ['\n'] }

  /** The certificates among the pieces, each trimmed and closed again. */
  function Blocks(pieces: seq<string>): seq<string> {
    if pieces == [] then []
    else
      var block := Trim(pieces[0]);
      var rest := Blocks(pieces[1..]);
      if Contains(block, BEGIN_MARK) then [block] + rest else rest
  }

  function RewrapAll(blocks: seq<string>): seq<string> {
    if blocks == [] then [] else [Rewrapped(Trim(blocks[0]))] + RewrapAll(blocks[1..])
  }

  function Certificates(pem: string): seq<string> { RewrapAll(Blocks(Split(pem, END_MARK))) }

  function Join(parts: seq<string>): string {
    if parts == [] then [] else if |parts| == 1 then parts[0] else parts[0] + ['\n'] + Join(parts[1..])
  }

  /** Leaf and chain. */
  function SplitCertChain(pem: string): (string, string) {
    var certs := Certificates(pem);
    if certs == [] then ([], []) else (certs[0], Join(certs[1..]))
  }

  function FullchainPem(leaf: string, chain: Option<string>): string {
    match chain
    case Some(c) => leaf + ['\n'] + c
    case None => leaf
  }

  // ------------------------------------------------------------ trimming

  predicate Trimmed(s: string) { s == [] || (!IsSpace(s[0]) && !IsSpace(s[|s| - 1])) }

  predicate AllSpace(s: string) { forall i | 0 <= i < |s| :: IsSpace(s[i]) }

  lemma {:induction false} TrimStartDrops(space: string, s: string)
    requires AllSpace(space) && (s != [] ==> !IsSpace(s[0]))
    ensures TrimStart(space + s) == s
  {
    if space == [] {
      assert space + s == s;
    } else {
      assert (space + s)[1..] == space[1..] + s;
      TrimStartDrops(space[1..], s);
    }
  }

  lemma {:induction false} TrimEndDrops(s: string, space: string)
    requires AllSpace(space) && (s != [] ==> !IsSpace(s[|s| - 1]))
    ensures TrimEnd(s + space) == s
  {
    if space == [] {
      assert s + space == s;
    } else {
      assert (s + space)[..|s + space| - 1] == s + space[..|space| - 1];
      TrimEndDrops(s, space[..|space| - 1]);
    }
  }

  lemma TrimDrops(before: string, s: string, after: string)
    requires AllSpace(before) && AllSpace(after) && Trimmed(s) && s != []
    ensures Trim(before + s + after) == s
  {
    assert before + s + after == before + (s + after);
    TrimStartDrops(before, s + after);
    TrimEndDrops(s, after);
  }

  lemma {:induction false} TrimStartIsSuffix(s: string) returns (i: nat)
    ensures i <= |s| && TrimStart(s) == s[i..] && (i < |s| ==> !IsSpace(s[i]))
  {
    if s != [] && IsSpace(s[0]) {
      i := TrimStartIsSuffix(s[1..]);
      i := i + 1;
    } else {
      i := 0;
    }
  }

  lemma {:induction false} TrimEndIsPrefix(s: string) returns (j: nat)
    ensures j <= |s| && TrimEnd(s) == s[..j] && (j > 0 ==> !IsSpace(s[j - 1]))
  {
    if s != [] && IsSpace(s[|s| - 1]) {
      j := TrimEndIsPrefix(s[..|s| - 1]);
    } else {
      j := |s|;
    }
  }

  /** Trimming cuts a slice out of the text and leaves no space at its ends. */
  lemma TrimIsSlice(s: string) returns (i: nat, j: nat)
    ensures i <= j <= |s| && Trim(s) == s[i..j] && Trimmed(Trim(s))
  {
    i := TrimStartIsSuffix(s);
    var k := TrimEndIsPrefix(s[i..]);
    j := i + k;
    assert s[i..][..k] == s[i..j];
  }

  lemma SliceHasNoMore(s: string, pattern: string, i: nat, j: nat)
    requires i <= j <= |s| && !Occurs(s, pattern)
    ensures !Occurs(s[i..j], pattern)
  {
    if k: nat :| OccursAt(s[i..j], pattern, k) {
      forall m | 0 <= m < |pattern| ensures s[i + k..i + k + |pattern|][m] == pattern[m] {
        assert pattern[m] == s[i..j][k..k + |pattern|][m];
      }
      assert OccursAt(s, pattern, i + k);
      assert false;
    }
  }

  // ------------------------------------------------------------ splitting

  ghost predicate Marks() {
    && |END_MARK| > 0
    && forall i | 0 <= i < |END_MARK| :: END_MARK[i] != '\n'
  }

  lemma MarksHold()
    ensures Marks()
  {
    var m := END_MARK;
    assert m == ['-', '-', '-', '-', '-', 'E', 'N', 'D', ' ',
                 'C', 'E', 'R', 'T', 'I', 'F', 'I', 'C', 'A', 'T', 'E', '-', '-', '-', '-', '-'];
  }

  lemma {:induction false} PiecesHaveNone(s: string, pattern: string)
    requires pattern != []
    ensures forall i | 0 <= i < |Split(s, pattern)| :: !Occurs(Split(s, pattern)[i], pattern)
    decreases |s|
  {
    match Find(s, pattern, 0)
    case None =>
    case Some(i) =>
      PiecesHaveNone(s[i + |pattern|..], pattern);
      if k: nat :| OccursAt(s[..i], pattern, k) {
        assert s[k..k + |pattern|] == s[..i][k..k + |pattern|];
        assert OccursAt(s, pattern, k);
        assert false;
      }
  }

  lemma OccurrenceReads(s: string, pattern: string, j: nat, at: nat)
    requires OccursAt(s, pattern, j) && j <= at < j + |pattern|
    ensures s[at] == pattern[at - j]
  {
    assert s[at] == s[j..j + |pattern|][at - j];
  }

  /** A piece without the mark, then a newline and the mark: the first mark is that one. */
  lemma FirstMark(piece: string, rest: string, mark: string)
    requires !Occurs(piece, mark) && mark != [] && forall i | 0 <= i < |mark| :: mark[i] != '\n'
    ensures Find(piece + ['\n'] + mark + rest, mark, 0) == Some(|piece| + 1)
  {
    var s := piece + ['\n'] + mark + rest;
    assert s[|piece| + 1..|piece| + 1 + |mark|] == mark;
    assert OccursAt(s, mark, |piece| + 1);
    forall j: nat | j < |piece| + 1 ensures !OccursAt(s, mark, j) {
      if OccursAt(s, mark, j) {
        if |piece| < j + |mark| {
          OccurrenceReads(s, mark, j, |piece|);
          assert false;
        } else {
          assert piece[j..j + |mark|] == s[j..j + |mark|];
          assert OccursAt(piece, mark, j);
        }
      }
    }
  }

  lemma SplitAtMark(piece: string, rest: string, mark: string)
    requires !Occurs(piece, mark) && mark != [] && forall i | 0 <= i < |mark| :: mark[i] != '\n'
    ensures Split(piece + ['\n'] + mark + rest, mark) == [piece + ['\n']] + Split(rest, mark)
  {
    var s := piece + ['\n'] + mark + rest;
    FirstMark(piece, rest, mark);
    assert s[..|piece| + 1] == piece + ['\n'];
    assert s[|piece| + 1 + |mark|..] == rest;
  }

  // ------------------------------------------------------- the normal form

  /** A block as splitting leaves it: trimmed, opened, and not closed. */
  ghost predicate NormalBlock(block: string) {
    Trimmed(block) && block != [] && Contains(block, BEGIN_MARK) && !Occurs(block, END_MARK)
  }

  ghost predicate NormalBlocks(blocks: seq<string>) {
    forall i | 0 <= i < |blocks| :: NormalBlock(blocks[i])
  }

  lemma {:induction false} BlocksAreNormal(pieces: seq<string>)
    requires forall i | 0 <= i < |pieces| :: !Occurs(pieces[i], END_MARK)
    ensures NormalBlocks(Blocks(pieces))
  {
    if pieces != [] {
      BlocksAreNormal(pieces[1..]);
      var i, j := TrimIsSlice(pieces[0]);
      SliceHasNoMore(pieces[0], END_MARK, i, j);
      if Contains(Trim(pieces[0]), BEGIN_MARK) {
        var k: nat :| OccursAt(Trim(pieces[0]), BEGIN_MARK, k);
        assert |BEGIN_MARK| == 27;
      }
    }
  }

  lemma SpacedPiece(space: string, block: string)
    requires AllSpace(space) && NormalBlock(block)
    ensures !Occurs(space + block, END_MARK)
    ensures Trim(space + block + ['\n']) == block
  {
    TrimDrops(space, block, ['\n']);
    assert END_MARK[0] == '-';
    NoMarkBehindSpace(space, block, END_MARK);
  }

  lemma NoMarkBehindSpace(space: string, block: string, mark: string)
    requires AllSpace(space) && mark != [] && !IsSpace(mark[0]) && !Occurs(block, mark)
    ensures !Occurs(space + block, mark)
  {
    var s := space + block;
    forall k: nat ensures !OccursAt(s, mark, k) {
      if k + |mark| <= |s| {
        if k < |space| {
          assert s[k..k + |mark|][0] == space[k];
        } else {
          assert block[k - |space|..k - |space| + |mark|] == s[k..k + |mark|];
          assert !OccursAt(block, mark, k - |space|);
        }
      }
    }
  }

  lemma SpaceHasNoMark(space: string, mark: string)
    requires AllSpace(space) && mark != [] && !IsSpace(mark[0])
    ensures !Occurs(space, mark)
  {
    forall i: nat ensures !OccursAt(space, mark, i) {
      if i + |mark| <= |space| {
        assert space[i..i + |mark|][0] == space[i];
      }
    }
  }

  lemma NoCertificateInSpace(space: string)
    requires AllSpace(space)
    ensures Blocks(Split(space, END_MARK)) == []
  {
    assert END_MARK[0] == '-';
    SpaceHasNoMark(space, END_MARK);
    assert Split(space, END_MARK) == [space];
    TrimStartDrops(space, []);
    assert space + [] == space;
    assert Trim(space) == [];
    assert |BEGIN_MARK| == 27;
  }

  /** Splitting recovers the blocks of any text laid out block by block between white space. */
  lemma {:induction false} BlocksOfText(space: string, blocks: seq<string>, end: string)
    requires AllSpace(space) && AllSpace(end) && NormalBlocks(blocks)
    ensures Blocks(Split(space + Laid(blocks, end), END_MARK)) == blocks
    decreases |blocks|
  {
    if blocks == [] {
      NoCertificateInSpace(space + end);
    } else {
      var next := ['\n'] + Gap(blocks[1..]);
      BlocksOfText(next, blocks[1..], end);
      BlocksOfFirst(space, blocks[0], next + Laid(blocks[1..], end));
      LaidFirst(space, blocks, end);
    }
  }

  lemma LaidFirst(space: string, blocks: seq<string>, end: string)
    requires blocks != []
    ensures space + Laid(blocks, end) ==
      (space + blocks[0]) + ['\n'] + END_MARK + (['\n'] + Gap(blocks[1..]) + Laid(blocks[1..], end))
  {
    Regroup(space, blocks[0], END_MARK, Gap(blocks[1..]), Laid(blocks[1..], end));
  }

  lemma Regroup(space: string, block: string, mark: string, gap: string, tail: string)
    ensures space + ((block + ['\n'] + mark + ['\n']) + gap + tail) ==
      (space + block) + ['\n'] + mark + (['\n'] + gap + tail)
  {
  }

  lemma BlocksOfFirst(space: string, block: string, rest: string)
    requires AllSpace(space) && NormalBlock(block)
    ensures Blocks(Split((space + block) + ['\n'] + END_MARK + rest, END_MARK)) ==
      [block] + Blocks(Split(rest, END_MARK))
  {
    MarksHold();
    SpacedPiece(space, block);
    SplitAtMark(space + block, rest, END_MARK);
    assert ([space + block + ['\n']] + Split(rest, END_MARK))[1..] == Split(rest, END_MARK);
  }

  /** One newline between two certificates. */
  function Gap(blocks: seq<string>): string { if blocks == [] then [] else ['\n'] }

  /** The certificates, joined by newlines, then the end. */
  function Laid(blocks: seq<string>, end: string): string {
    if blocks == [] then end else Rewrapped(blocks[0]) + Gap(blocks[1..]) + Laid(blocks[1..], end)
  }

  lemma TrimOfTrimmed(s: string)
    requires Trimmed(s) && s != []
    ensures Trim(s) == s
  {
    TrimDrops([], s, []);
    assert [] + s + [] == s;
  }

  lemma {:induction false} JoinIsLaid(blocks: seq<string>)
    requires NormalBlocks(blocks)
    ensures |RewrapAll(blocks)| == |blocks|
    ensures forall i | 0 <= i < |blocks| :: RewrapAll(blocks)[i] == Rewrapped(blocks[i])
    ensures Join(RewrapAll(blocks)) == Laid(blocks, [])
  {
    if blocks != [] {
      TrimOfTrimmed(blocks[0]);
      JoinIsLaid(blocks[1..]);
      var certs := RewrapAll(blocks);
      assert certs[1..] == RewrapAll(blocks[1..]);
      if |blocks| == 1 {
        assert Rewrapped(blocks[0]) + [] + [] == Rewrapped(blocks[0]);
      }
    }
  }

  /** The text `FullchainPem` writes for a split chain. */
  lemma {:induction false} FullchainIsLaid(blocks: seq<string>)
    requires NormalBlocks(blocks)
    ensures var certs := RewrapAll(blocks);
      FullchainPem(if certs == [] then [] else certs[0], Some(if certs == [] then [] else Join(certs[1..])))
        == Laid(blocks, if |blocks| <= 1 then ['\n'] else [])
  {
    JoinIsLaid(blocks);
    if blocks != [] {
      JoinIsLaid(blocks[1..]);
      assert RewrapAll(blocks)[1..] == RewrapAll(blocks[1..]);
      if |blocks| == 1 {
        assert blocks[1..] == [];
      }
    } else {
      assert [] + ['\n'] + [] == ['\n'];
    }
  }

  /** Splitting, joining and splitting again gives the same certificates, for every input text. */
  lemma SplitIsNormalForm(pem: string)
    ensures var (leaf, chain) := SplitCertChain(pem);
      && SplitCertChain(FullchainPem(leaf, Some(chain))) == (leaf, chain)
      && Certificates(FullchainPem(leaf, Some(chain))) == Certificates(pem)
  {
    var blocks := Blocks(Split(pem, END_MARK));
    PiecesHaveNone(pem, END_MARK);
    BlocksAreNormal(Split(pem, END_MARK));
    var end := if |blocks| <= 1 then ['\n'] else [];
    FullchainIsLaid(blocks);
    JoinIsLaid(blocks);
    BlocksOfText([], blocks, end);
    assert [] + Laid(blocks, end) == Laid(blocks, end);
  }

  /** Every list of normal blocks is what some text splits into: joining loses no certificate. */
  lemma JoinedBlocksAreRecovered(blocks: seq<string>)
    requires NormalBlocks(blocks)
    ensures Blocks(Split(Join(RewrapAll(blocks)), END_MARK)) == blocks
    ensures SplitCertChain(Join(RewrapAll(blocks))) ==
      if blocks == [] then ([], []) else (Rewrapped(blocks[0]), Join(RewrapAll(blocks[1..])))
  {
    JoinIsLaid(blocks);
    BlocksOfText([], blocks, []);
    assert [] + Laid(blocks, []) == Laid(blocks, []);
    if blocks != [] {
      assert RewrapAll(blocks)[1..] == RewrapAll(blocks[1..]);
    }
  }
}
