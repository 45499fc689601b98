/**
 * Display-math shielding around Markdown rendering (app.js `shieldBlockMath`,
 * `unshieldBlockMath`): every closed `$$…$$` block is swapped for a numbered
 * placeholder token before rendering and put back afterwards.
 */
module BlockMath {
  import opened JsText

  /** The block-math delimiter. */
  const Dollars: string := "$$"

  /** The fixed start of every placeholder token. */
  const TokenHead: string := "[[[MATHBLOCK_"

  /** The placeholder for block number `k`: `[[[MATHBLOCK_k]]]`. */
  function Token(k: nat): string
  {
    TokenHead + NatToString(k) + "]]]"
  }

  /** The text with placeholders and the extracted block contents, in order. */
  datatype Shielded = Shielded(text: string, blocks: seq<string>)

  /** One step of the scan from index `i`: the rest of the text, or the next closed block. */
  datatype Scan = Tail(rest: string) | Block(before: string, content: string, next: nat)

  /** What one iteration of the `shieldBlockMath` loop finds from index `i`. */
  function ScanFrom(t: string, i: nat): (s: Scan)
    requires i < |t|
    ensures s.Block? ==> i < s.next <= |t|
  {
    var start := IndexOf(t, Dollars, i);
    if start == -1 then Tail(t[i..])
    else
      var end := IndexOf(t, Dollars, start + 2);
      // An unclosed `$$` is copied together with the rest of the text.
      if end == -1 then Tail(t[i..start] + t[start..])
      else Block(t[i..start], t[start + 2..end], end + 2)
  }

  /** The scan finds the block between the first `$$` at or after `i` and the next one. */
  lemma ScanFindsBlock(t: string, i: nat, start: int, end: int)
    requires i < |t|
    requires start == IndexOf(t, Dollars, i) && start != -1
    requires end == IndexOf(t, Dollars, start + 2) && end != -1
    ensures ScanFrom(t, i).Block?
    ensures ScanFrom(t, i).before == t[i..start]
    ensures ScanFrom(t, i).content == t[start + 2..end]
    ensures ScanFrom(t, i).next == end + 2
  {
  }

  /** Concatenation regrouped, stated once so that loop proofs need not re-derive it. */
  lemma AppendAssoc(a: string, b: string, c: string, d: string)
    ensures a + b + c + d == a + (b + c + d)
  {
  }

  /** Shielding from `i` when the scan finds the closed block between `start` and `end`. */
  lemma ShieldFromFound(t: string, i: nat, start: int, end: int, k: nat)
    requires i < |t|
    requires start == IndexOf(t, Dollars, i) && start != -1
    requires end == IndexOf(t, Dollars, start + 2) && end != -1
    ensures i <= start && start + 2 <= end && end + 2 <= |t|
    ensures var r := ShieldFrom(t, end + 2, k + 1);
            ShieldFrom(t, i, k) == Shielded(t[i..start] + Token(k) + r.text, [t[start + 2..end]] + r.blocks)
  {
    ScanFindsBlock(t, i, start, end);
    ShieldFromBlock(t, i, k);
  }

  /**
   * One iteration of the loop that finds a closed block between `start` and `end` keeps
   * the loop invariant, stated in the shape the loop builds its output.
   */
  lemma ShieldLoopStep(t: string, i: nat, start: int, end: int, out: string, blocks: seq<string>,
                        i': nat, out': string, blocks': seq<string>, whole: Shielded)
    requires i < |t|
    requires start == IndexOf(t, Dollars, i) && start != -1
    requires end == IndexOf(t, Dollars, start + 2) && end != -1
    requires out + ShieldFrom(t, i, |blocks|).text == whole.text
    requires blocks + ShieldFrom(t, i, |blocks|).blocks == whole.blocks
    requires out' == out + t[i..start] + Token(|blocks|)
    requires blocks' == blocks + [t[start + 2..end]]
    requires i' == end + 2
    ensures i < i' <= |t|
    ensures out' + ShieldFrom(t, i', |blocks'|).text == whole.text
    ensures blocks' + ShieldFrom(t, i', |blocks'|).blocks == whole.blocks
  {
    var k := |blocks|;
    ShieldFromFound(t, i, start, end, k);
    var r := ShieldFrom(t, end + 2, k + 1);
    assert |blocks'| == k + 1;
    RegroupText(out, t[i..start], Token(k), r.text, whole.text);
    RegroupBlocks(blocks, [t[start + 2..end]], r.blocks, whole.blocks);
  }

  /** Regrouping of the loop's output text. */
  lemma RegroupText(out: string, a: string, b: string, c: string, w: string)
    requires out + (a + b + c) == w
    ensures out + a + b + c == w
  {
    AppendAssoc(out, a, b, c);
  }

  /** Regrouping of the loop's block list. */
  lemma RegroupBlocks(out: seq<string>, a: seq<string>, b: seq<string>, w: seq<string>)
    requires out + (a + b) == w
    ensures out + a + b == w
  {
    BlocksAssoc(out, a, b);
  }

  /** Concatenation regrouped, for five parts. */
  lemma AppendAssoc5(a: string, b: string, c: string, d: string, e: string)
    ensures a + (b + (c + (d + e))) == a + b + c + d + e
  {
  }

  /** Concatenation regrouped, for three parts. */
  lemma AppendAssoc3(a: string, b: string, c: string)
    ensures a + b + c == a + (b + c)
  {
  }

  /** When no `$$` follows `i`, appending the rest of the text completes the loop's output. */
  lemma ShieldLoopNoDelimiter(t: string, i: nat, out: string, blocks: seq<string>, whole: Shielded)
    requires i < |t| && IndexOf(t, Dollars, i) == -1
    requires out + ShieldFrom(t, i, |blocks|).text == whole.text
    requires blocks + ShieldFrom(t, i, |blocks|).blocks == whole.blocks
    ensures out + t[i..] == whole.text
    ensures blocks == whole.blocks
  {
    assert ShieldFrom(t, i, |blocks|) == Shielded(t[i..], []);
    assert blocks + [] == blocks;
  }

  /** When the `$$` at `start` is never closed, appending the rest of the text completes the loop's output. */
  lemma ShieldLoopUnclosed(t: string, i: nat, start: int, out: string, blocks: seq<string>, whole: Shielded)
    requires i < |t|
    requires start == IndexOf(t, Dollars, i) && start != -1
    requires IndexOf(t, Dollars, start + 2) == -1
    requires out + ShieldFrom(t, i, |blocks|).text == whole.text
    requires blocks + ShieldFrom(t, i, |blocks|).blocks == whole.blocks
    ensures out + t[i..start] + t[start..] == whole.text
    ensures blocks == whole.blocks
  {
    assert ShieldFrom(t, i, |blocks|) == Shielded(t[i..start] + t[start..], []);
    AppendAssoc3(out, t[i..start], t[start..]);
    assert blocks + [] == blocks;
  }

  /** Concatenation of block lists regrouped. */
  lemma BlocksAssoc(a: seq<string>, b: seq<string>, c: seq<string>)
    ensures a + b + c == a + (b + c)
  {
  }

  /** Shielding from a found block emits the text before it, its token, and the shielded rest. */
  lemma ShieldFromBlock(t: string, i: nat, k: nat)
    requires i < |t| && ScanFrom(t, i).Block?
    ensures var s := ScanFrom(t, i);
            var r := ShieldFrom(t, s.next, k + 1);
            ShieldFrom(t, i, k) == Shielded(s.before + Token(k) + r.text, [s.content] + r.blocks)
  {
  }

  /**
   * What the scanning loop of `shieldBlockMath` produces from index `i` on, numbering
   * the blocks it finds from `k`.
   */
  function ShieldFrom(t: string, i: nat, k: nat): Shielded
    requires i <= |t|
    decreases |t| - i
  {
    if i == |t| then Shielded("", [])
    else match ScanFrom(t, i)
      case Tail(rest) => Shielded(rest, [])
      case Block(before, content, next) =>
        var r := ShieldFrom(t, next, k + 1);
        Shielded(before + Token(k) + r.text, [content] + r.blocks)
  }

  /** `shieldBlockMath(t)`. */
  function Shield(t: string): Shielded
  {
    ShieldFrom(t, 0, 0)
  }

  /** The scanning loop of `shieldBlockMath`. */
  method ShieldBlockMath(mdText: string) returns (text: string, blocks: seq<string>)
    ensures Shielded(text, blocks) == Shield(mdText)
  {
    blocks := [];
    var out := "";
    var i := 0;
    ghost var whole := Shield(mdText);
    while i < |mdText|
      invariant i <= |mdText|
      invariant out + ShieldFrom(mdText, i, |blocks|).text == whole.text
      invariant blocks + ShieldFrom(mdText, i, |blocks|).blocks == whole.blocks
      decreases |mdText| - i
    {
      ghost var out0 := out;
      var start := IndexOf(mdText, Dollars, i);
      if start == -1 {
        ShieldLoopNoDelimiter(mdText, i, out, blocks, whole);
        out := out + mdText[i..];
        break;
      }
      out := out + mdText[i..start];
      var end := IndexOf(mdText, Dollars, start + 2);
      if end == -1 {
        ShieldLoopUnclosed(mdText, i, start, out0, blocks, whole);
        out := out + mdText[start..];
        break;
      }
      var content := mdText[start + 2..end];
      var token := Token(|blocks|);
      ghost var blocks0 := blocks;
      blocks := blocks + [content];
      out := out + token;
      ghost var i0 := i;
      i := end + 2;
      ShieldLoopStep(mdText, i0, start, end, out0, blocks0, i, out, blocks, whole);
    }
    text := out;
  }

  /** What the replacement loop of `unshieldBlockMath` produces from block number `k` on. */
  function UnshieldFrom(html: string, blocks: seq<string>, k: nat): string
    decreases |blocks|
  {
    if blocks == [] then html
    else UnshieldFrom(ReplaceAll(html, Token(k), Dollars + blocks[0] + Dollars), blocks[1..], k + 1)
  }

  /** `unshieldBlockMath(html, blocks)`. */
  function Unshield(html: string, blocks: seq<string>): string
  {
    UnshieldFrom(html, blocks, 0)
  }

  /** The replacement loop of `unshieldBlockMath`. */
  method UnshieldBlockMath(html: string, blocks: seq<string>) returns (out: string)
    ensures out == Unshield(html, blocks)
  {
    out := html;
    for idx := 0 to |blocks|
      invariant UnshieldFrom(out, blocks[idx..], idx) == Unshield(html, blocks)
    {
      assert blocks[idx..][1..] == blocks[idx + 1..];
      var token := Token(idx);
      out := ReplaceAll(out, token, Dollars + blocks[idx] + Dollars);
    }
  }

  /** `gaps[0] + Token(k) + gaps[1] + Token(k + 1) + … + gaps[n]`. */
  function Weave(gaps: seq<string>, k: nat): string
    requires |gaps| >= 1
    decreases |gaps|
  {
    if |gaps| == 1 then gaps[0] else gaps[0] + Token(k) + Weave(gaps[1..], k + 1)
  }

  /** `gaps[0] + "$$" + blocks[0] + "$$" + gaps[1] + … + gaps[n]`. */
  function Delimit(gaps: seq<string>, blocks: seq<string>): string
    requires |gaps| == |blocks| + 1
    decreases |blocks|
  {
    if blocks == [] then gaps[0]
    else gaps[0] + Dollars + blocks[0] + Dollars + Delimit(gaps[1..], blocks[1..])
  }

  /** No `$$` in `g` is followed by a later `$$`: the text holds no complete block. */
  ghost predicate NoClosedBlock(g: string)
  {
    forall p: nat, q: nat :: OccursAt(g, Dollars, p) && p + 2 <= q ==> !OccursAt(g, Dollars, q)
  }

  /**
   * The shape of the shielded text: the input is text gaps separated by `$$`-delimited
   * blocks; the output keeps the gaps and puts the tokens numbered from `k`, in order,
   * where the blocks were. No gap before a block and no block holds `$$`, and the final
   * gap holds no complete block.
   */
  lemma {:induction false} ShieldStructure(t: string, i: nat, k: nat) returns (gaps: seq<string>)
    requires i <= |t|
    ensures |gaps| == |ShieldFrom(t, i, k).blocks| + 1
    ensures ShieldFrom(t, i, k).text == Weave(gaps, k)
    ensures t[i..] == Delimit(gaps, ShieldFrom(t, i, k).blocks)
    ensures forall j :: 0 <= j < |gaps| - 1 ==> !Contains(gaps[j], Dollars)
    ensures forall j :: 0 <= j < |gaps| - 1 ==> !Contains(ShieldFrom(t, i, k).blocks[j], Dollars)
    ensures NoClosedBlock(gaps[|gaps| - 1])
    decreases |t| - i
  {
    if i == |t| {
      gaps := [""];
      assert t[i..] == "";
      return;
    }
    if ScanFrom(t, i).Tail? {
      gaps := [t[i..]];
      TailStructure(t, i, k);
      return;
    }
    var s := ScanFrom(t, i);
    BlockStructure(t, i, k);
    var rest := ShieldStructure(t, s.next, k + 1);
    gaps := [s.before] + rest;
    StructureCons(s.before, s.content, rest, ShieldFrom(t, s.next, k + 1), t[s.next..], k,
                  ShieldFrom(t, i, k), t[i..]);
  }

  /** When the scan from `i` finds no closed block, shielding copies the rest, which holds no closed block. */
  lemma TailStructure(t: string, i: nat, k: nat)
    requires i < |t| && ScanFrom(t, i).Tail?
    ensures ShieldFrom(t, i, k) == Shielded(t[i..], [])
    ensures NoClosedBlock(t[i..])
  {
    var start := IndexOf(t, Dollars, i);
    if start == -1 {
      ShieldFromNoDelimiter(t, i, k);
      NoDelimiterTail(t, i);
    } else {
      ShieldFromUnclosed(t, i, start, k);
      UnclosedTail(t, i, start);
    }
  }

  /**
   * When the scan from `i` finds a closed block, the text is the gap, `$$`, the block,
   * `$$` and the rest, neither gap nor block holds `$$`, and shielding emits the gap,
   * the token and the shielded rest.
   */
  lemma BlockStructure(t: string, i: nat, k: nat)
    requires i < |t| && ScanFrom(t, i).Block?
    ensures var s := ScanFrom(t, i);
            && t[i..] == s.before + Dollars + s.content + Dollars + t[s.next..]
            && !Contains(s.before, Dollars) && !Contains(s.content, Dollars)
            && ShieldFrom(t, i, k) == Shielded(s.before + Token(k) + ShieldFrom(t, s.next, k + 1).text,
                                               [s.content] + ShieldFrom(t, s.next, k + 1).blocks)
  {
    var start, end := ScanBlockBounds(t, i);
    ScanBlockClear(t, i, start, end);
    BlockParts(t, i, start, end);
    ShieldFromBlock(t, i, k);
  }

  /** Where the closed block found from `i` lies. */
  lemma ScanBlockBounds(t: string, i: nat) returns (start: nat, end: nat)
    requires i < |t| && ScanFrom(t, i).Block?
    ensures start == IndexOf(t, Dollars, i) && end == IndexOf(t, Dollars, start + 2)
    ensures i <= start && start + 2 <= end && end + 2 <= |t|
    ensures ScanFrom(t, i) == Block(t[i..start], t[start + 2..end], end + 2)
  {
    var st := IndexOf(t, Dollars, i);
    assert st != -1;
    var en := IndexOf(t, Dollars, st + 2);
    assert en != -1;
    ScanFindsBlock(t, i, st, en);
    start, end := st, en;
  }

  /** The delimiters of the block found from `i`, and no `$$` before the block or inside it. */
  lemma ScanBlockClear(t: string, i: nat, start: nat, end: nat)
    requires start == IndexOf(t, Dollars, i) && end == IndexOf(t, Dollars, start + 2)
    ensures OccursAt(t, Dollars, start) && OccursAt(t, Dollars, end)
    ensures forall j: nat :: i <= j < start ==> !OccursAt(t, Dollars, j)
    ensures forall j: nat :: start + 2 <= j < end ==> !OccursAt(t, Dollars, j)
  {
    IndexOfFirst(t, Dollars, i);
    IndexOfFirst(t, Dollars, start + 2);
  }

  /** The structure of the shielded text extends by one leading gap and block. */
  lemma StructureCons(g: string, b: string, rest: seq<string>, r: Shielded, tail: string, k: nat,
                      whole: Shielded, text: string)
    requires |rest| == |r.blocks| + 1
    requires r.text == Weave(rest, k + 1) && tail == Delimit(rest, r.blocks)
    requires forall j :: 0 <= j < |rest| - 1 ==> !Contains(rest[j], Dollars)
    requires forall j :: 0 <= j < |rest| - 1 ==> !Contains(r.blocks[j], Dollars)
    requires NoClosedBlock(rest[|rest| - 1])
    requires !Contains(g, Dollars) && !Contains(b, Dollars)
    requires whole == Shielded(g + Token(k) + r.text, [b] + r.blocks)
    requires text == g + Dollars + b + Dollars + tail
    ensures var gaps := [g] + rest;
            && |gaps| == |whole.blocks| + 1
            && whole.text == Weave(gaps, k)
            && text == Delimit(gaps, whole.blocks)
            && (forall j :: 0 <= j < |gaps| - 1 ==> !Contains(gaps[j], Dollars))
            && (forall j :: 0 <= j < |gaps| - 1 ==> !Contains(whole.blocks[j], Dollars))
            && NoClosedBlock(gaps[|gaps| - 1])
  {
    WeaveDelimitCons(g, rest, b, r.blocks, k);
    var gaps := [g] + rest;
    assert forall j :: 1 <= j < |gaps| ==> gaps[j] == rest[j - 1];
    assert forall j :: 1 <= j < |whole.blocks| ==> whole.blocks[j] == r.blocks[j - 1];
  }

  /** With no `$$` from `i` on, shielding copies the rest of the text. */
  lemma ShieldFromNoDelimiter(t: string, i: nat, k: nat)
    requires i < |t| && IndexOf(t, Dollars, i) == -1
    ensures ShieldFrom(t, i, k) == Shielded(t[i..], [])
  {
  }

  /** With an unclosed `$$` at `start`, shielding copies the rest of the text. */
  lemma ShieldFromUnclosed(t: string, i: nat, start: int, k: nat)
    requires i < |t|
    requires start == IndexOf(t, Dollars, i) && start != -1
    requires IndexOf(t, Dollars, start + 2) == -1
    ensures ShieldFrom(t, i, k) == Shielded(t[i..start] + t[start..], [])
  {
  }

  /** The rest of a text with no `$$` from `i` on holds no `$$`, so no closed block. */
  lemma NoDelimiterTail(t: string, i: nat)
    requires i < |t| && IndexOf(t, Dollars, i) == -1
    ensures NoClosedBlock(t[i..])
  {
    IndexOfNone(t, Dollars, i);
    forall p: nat
      ensures !OccursAt(t[i..], Dollars, p)
    {
      OccursInSuffix(t, i, Dollars, p);
    }
  }

  /** The rest of a text whose first `$$` from `i` on is never closed holds no closed block. */
  lemma UnclosedTail(t: string, i: nat, start: int)
    requires i < |t|
    requires start == IndexOf(t, Dollars, i) && start != -1
    requires IndexOf(t, Dollars, start + 2) == -1
    ensures t[i..start] + t[start..] == t[i..]
    ensures NoClosedBlock(t[i..])
  {
    IndexOfFirst(t, Dollars, i);
    IndexOfNone(t, Dollars, start + 2);
    forall p: nat, q: nat | OccursAt(t[i..], Dollars, p) && p + 2 <= q
      ensures !OccursAt(t[i..], Dollars, q)
    {
      OccursInSuffix(t, i, Dollars, p);
      OccursInSuffix(t, i, Dollars, q);
    }
  }

  /**
   * A closed block found from `i`: the text is the gap, `$$`, the block, `$$` and the
   * rest, and neither the gap nor the block holds `$$`.
   */
  lemma BlockParts(t: string, i: nat, start: nat, end: nat)
    requires i <= start && start + 2 <= end && end + 2 <= |t|
    requires OccursAt(t, Dollars, start) && OccursAt(t, Dollars, end)
    requires forall j: nat :: i <= j < start ==> !OccursAt(t, Dollars, j)
    requires forall j: nat :: start + 2 <= j < end ==> !OccursAt(t, Dollars, j)
    ensures t[i..] == t[i..start] + Dollars + t[start + 2..end] + Dollars + t[end + 2..]
    ensures !Contains(t[i..start], Dollars) && !Contains(t[start + 2..end], Dollars)
  {
    SliceWithout(t, i, start, Dollars);
    SliceWithout(t, start + 2, end, Dollars);
    SuffixAtOccurrence(t, end, Dollars);
    SuffixSplit(t, start + 2, end);
    SuffixAtOccurrence(t, start, Dollars);
    SuffixSplit(t, i, start);
    AppendAssoc5(t[i..start], Dollars, t[start + 2..end], Dollars, t[end + 2..]);
  }

  /** Weaving and delimiting one more leading gap and block. */
  lemma WeaveDelimitCons(g: string, rest: seq<string>, b: string, blocks: seq<string>, k: nat)
    requires |rest| == |blocks| + 1
    ensures Weave([g] + rest, k) == g + Token(k) + Weave(rest, k + 1)
    ensures Delimit([g] + rest, [b] + blocks) == g + Dollars + b + Dollars + Delimit(rest, blocks)
  {
    assert ([g] + rest)[1..] == rest;
    assert ([b] + blocks)[1..] == blocks;
  }

  /** Facts about the token layout the proofs below rely on. */
  lemma TokenShape(k: nat)
    ensures |TokenHead| == 13
    ensures TokenHead <= Token(k)
    ensures |Token(k)| == 16 + |NatToString(k)|
    ensures forall j :: 0 <= j < |NatToString(k)| ==> Token(k)[13 + j] == NatToString(k)[j]
    ensures Token(k)[13 + |NatToString(k)|] == ']'
    ensures Token(k)[0] == '[' && Token(k)[1] == '[' && Token(k)[2] == '[' && Token(k)[3] == 'M'
    ensures forall j :: 3 <= j < |Token(k)| ==> Token(k)[j] != '['
    ensures '$' !in Token(k)
  {
    var d := NatToString(k);
    assert Token(k) == TokenHead + d + "]]]";
    forall j | 3 <= j < |Token(k)|
      ensures Token(k)[j] != '[' && Token(k)[j] != '$'
    {
      if j >= 13 && j < 13 + |d| {
        assert Token(k)[j] == d[j - 13];
      }
    }
  }

  /** A replacement whose pattern starts with the token head skips over text that does not contain the head. */
  lemma {:induction false} SkipHeadless(a: string, y: string, pat: string, rep: string)
    requires TokenHead <= pat
    requires !Contains(a, TokenHead)
    requires y == [] || TokenHead <= y
    ensures ReplaceAll(a + y, pat, rep) == a + ReplaceAll(y, pat, rep)
    decreases |a|
  {
    if a == [] {
      assert a + y == y;
      return;
    }
    var s := a + y;
    assert !(pat <= s) by {
      if pat <= s {
        assert TokenHead <= s;
        NoHeadAcrossBoundary(a, y);
      }
    }
    assert s[1..] == a[1..] + y;
    assert !Contains(a[1..], TokenHead) by {
      if Contains(a[1..], TokenHead) {
        var p: nat :| OccursAt(a[1..], TokenHead, p);
        OccursInSuffix(a, 1, TokenHead, p);
      }
    }
    SkipHeadless(a[1..], y, pat, rep);
  }

  /** The token head cannot start inside a head-free non-empty `a` and run on into `y`. */
  lemma NoHeadAcrossBoundary(a: string, y: string)
    requires a != [] && !Contains(a, TokenHead)
    requires y == [] || TokenHead <= y
    ensures !(TokenHead <= a + y)
  {
    var s := a + y;
    assert TokenHead[0] == '[' && TokenHead[1] == '[' && TokenHead[2] == '[' && TokenHead[3] == 'M';
    if |a| >= 13 {
      assert s[..13] == a[..13];
      assert !OccursAt(a, TokenHead, 0);
    } else if y != [] {
      assert s[|a|] == '[';
      if |a| >= 3 {
        assert forall j :: 3 <= j < 13 ==> TokenHead[j] != '[';
        assert s[|a|] != TokenHead[|a|];
      } else {
        assert s[3] == y[3 - |a|] == '[';
      }
    }
  }

  /** The token for block `m` never starts where the token for another block starts. */
  lemma TokenMismatch(m: nat, k: nat, y: string)
    requires m != k
    ensures !(Token(m) <= Token(k) + y)
  {
    TokenShape(m);
    TokenShape(k);
    var dm := NatToString(m);
    var dk := NatToString(k);
    var u := Token(k) + y;
    if |dm| == |dk| {
      if dm == dk {
        NatToStringInjective(m, k);
      }
      var j :| 0 <= j < |dm| && dm[j] != dk[j];
      assert Token(m)[13 + j] != u[13 + j];
    } else if |dm| < |dk| {
      assert Token(m)[13 + |dm|] != u[13 + |dm|];
    } else {
      assert Token(m)[13 + |dk|] != u[13 + |dk|];
    }
  }

  /** Replacing the token of block `m` leaves the token of another block `k` in place. */
  lemma SkipOtherToken(k: nat, m: nat, y: string, rep: string)
    requires m != k
    ensures ReplaceAll(Token(k) + y, Token(m), rep) == Token(k) + ReplaceAll(y, Token(m), rep)
  {
    TokenShape(k);
    TokenShape(m);
    var t := Token(k);
    var p := Token(m);
    forall j | 0 <= j < |t|
      ensures !(p <= t[j..] + y)
    {
      if j == 0 {
        assert t[0..] == t;
        TokenMismatch(m, k, y);
      } else if j < 3 {
        assert (t[j..] + y)[3 - j] == t[3];
      } else {
        assert (t[j..] + y)[0] == t[j];
      }
    }
    ReplaceSkipsUnmatched(t, y, p, rep);
  }

  /** No gap holds the token head, so only the tokens woven in from `k` on can match a token. */
  ghost predicate HeadlessAll(parts: seq<string>)
  {
    forall j :: 0 <= j < |parts| ==> !Contains(parts[j], TokenHead)
  }

  /** Replacing the token of an earlier block `m < k` changes nothing in the weave numbered from `k`. */
  lemma {:induction false} WeaveLacksEarlierToken(gaps: seq<string>, k: nat, m: nat, rep: string)
    requires |gaps| >= 1 && HeadlessAll(gaps) && m < k
    ensures ReplaceAll(Weave(gaps, k), Token(m), rep) == Weave(gaps, k)
    decreases |gaps|
  {
    TokenShape(m);
    if |gaps| == 1 {
      SkipHeadless(gaps[0], [], Token(m), rep);
      assert gaps[0] + [] == gaps[0];
    } else {
      var w := Weave(gaps[1..], k + 1);
      TokenShape(k);
      AppendAssoc3(gaps[0], Token(k), w);
      assert TokenHead <= Token(k) + w;
      SkipHeadless(gaps[0], Token(k) + w, Token(m), rep);
      SkipOtherToken(k, m, w, rep);
      WeaveLacksEarlierToken(gaps[1..], k + 1, m, rep);
    }
  }

  /** A restored block `a $$b$$` survives a later token replacement unchanged. */
  lemma SkipRestored(a: string, b: string, x: string, pat: string, rep: string)
    requires TokenHead <= pat && '$' !in pat
    requires !Contains(a, TokenHead) && !Contains(b, TokenHead)
    ensures ReplaceAll(a + Dollars + b + Dollars + x, pat, rep) == a + Dollars + b + Dollars + ReplaceAll(x, pat, rep)
  {
    var y3 := ['$'] + x;
    var y2 := b + ['$'] + y3;
    var y1 := ['$'] + y2;
    DollarsRegroup(a, b, x);
    DollarsRegroup(a, b, ReplaceAll(x, pat, rep));
    SkipBeforeDollar(a, y1, pat, rep);
    SkipDollar(y2, pat, rep);
    SkipBeforeDollar(b, y3, pat, rep);
    SkipDollar(x, pat, rep);
  }

  /** The restored-block layout, regrouped to the right. */
  lemma DollarsRegroup(a: string, b: string, z: string)
    ensures a + ['$'] + (['$'] + (b + ['$'] + (['$'] + z))) == a + Dollars + b + Dollars + z
  {
  }

  /** A `$` is never the start of a token. */
  lemma SkipDollar(y: string, pat: string, rep: string)
    requires TokenHead <= pat
    ensures ReplaceAll(['$'] + y, pat, rep) == ['$'] + ReplaceAll(y, pat, rep)
  {
    assert pat[0] == '[';
    assert (['$'] + y)[1..] == y;
  }

  /** Head-free text followed by a `$` is copied by a token replacement. */
  lemma SkipBeforeDollar(a: string, y: string, pat: string, rep: string)
    requires TokenHead <= pat && '$' !in pat
    requires !Contains(a, TokenHead)
    ensures ReplaceAll(a + ['$'] + y, pat, rep) == a + ['$'] + ReplaceAll(y, pat, rep)
  {
    ReplaceAroundChar(a, '$', y, pat, rep);
    SkipHeadless(a, [], pat, rep);
    assert a + [] == a;
  }

  /** Unshielding passes over a block that is already restored. */
  lemma {:induction false} UnshieldPastRestored(a: string, b: string, x: string, blocks: seq<string>, k: nat)
    requires !Contains(a, TokenHead) && !Contains(b, TokenHead)
    ensures UnshieldFrom(a + Dollars + b + Dollars + x, blocks, k) == a + Dollars + b + Dollars + UnshieldFrom(x, blocks, k)
    decreases |blocks|
  {
    if blocks != [] {
      TokenShape(k);
      var rep := Dollars + blocks[0] + Dollars;
      SkipRestored(a, b, x, Token(k), rep);
      UnshieldPastRestored(a, b, ReplaceAll(x, Token(k), rep), blocks[1..], k + 1);
    }
  }

  /** Unshielding a weave of head-free gaps restores every block between its `$$` delimiters. */
  lemma {:induction false} UnshieldWeave(gaps: seq<string>, blocks: seq<string>, k: nat)
    requires |gaps| == |blocks| + 1
    requires HeadlessAll(gaps) && HeadlessAll(blocks)
    ensures UnshieldFrom(Weave(gaps, k), blocks, k) == Delimit(gaps, blocks)
    decreases |blocks|
  {
    if blocks != [] {
      var w := Weave(gaps[1..], k + 1);
      var rep := Dollars + blocks[0] + Dollars;
      ReplaceTokenOnce(gaps[0], k, w, rep);
      WeaveLacksEarlierToken(gaps[1..], k + 1, k, rep);
      RestoredRegroup(gaps[0], blocks[0], w);
      UnshieldPastRestored(gaps[0], blocks[0], w, blocks[1..], k + 1);
      UnshieldWeave(gaps[1..], blocks[1..], k + 1);
    }
  }

  /** Replacing token `k` after a head-free gap replaces the token right after the gap. */
  lemma ReplaceTokenOnce(g: string, k: nat, w: string, rep: string)
    requires !Contains(g, TokenHead)
    ensures ReplaceAll(g + Token(k) + w, Token(k), rep) == g + rep + ReplaceAll(w, Token(k), rep)
  {
    TokenShape(k);
    AppendAssoc3(g, Token(k), w);
    SkipHeadless(g, Token(k) + w, Token(k), rep);
    assert Token(k) <= Token(k) + w;
    assert (Token(k) + w)[|Token(k)|..] == w;
    AppendAssoc3(g, rep, ReplaceAll(w, Token(k), rep));
  }

  /** A restored block, regrouped. */
  lemma RestoredRegroup(g: string, b: string, w: string)
    ensures g + (Dollars + b + Dollars) + w == g + Dollars + b + Dollars + w
  {
  }

  /** Every gap and block of a delimited text without the token head is head-free. */
  lemma {:induction false} DelimitPartsHeadless(gaps: seq<string>, blocks: seq<string>)
    requires |gaps| == |blocks| + 1
    requires !Contains(Delimit(gaps, blocks), TokenHead)
    ensures HeadlessAll(gaps) && HeadlessAll(blocks)
    decreases |blocks|
  {
    if blocks == [] {
      return;
    }
    var rest := Delimit(gaps[1..], blocks[1..]);
    var s := Delimit(gaps, blocks);
    assert s == gaps[0] + (Dollars + blocks[0] + Dollars + rest);
    ContainsInConcat(gaps[0], Dollars + blocks[0] + Dollars + rest, TokenHead);
    assert Dollars + blocks[0] + Dollars + rest == Dollars + (blocks[0] + (Dollars + rest));
    ContainsInConcat(Dollars, blocks[0] + (Dollars + rest), TokenHead);
    ContainsInConcat(blocks[0], Dollars + rest, TokenHead);
    ContainsInConcat(Dollars, rest, TokenHead);
    DelimitPartsHeadless(gaps[1..], blocks[1..]);
    assert gaps == [gaps[0]] + gaps[1..];
    assert blocks == [blocks[0]] + blocks[1..];
  }

  /**
   * Round trip: for Markdown that does not itself contain the token head, unshielding
   * the shielded text with the extracted blocks gives back the Markdown.
   */
  lemma ShieldRoundTrip(t: string)
    requires !Contains(t, TokenHead)
    ensures Unshield(Shield(t).text, Shield(t).blocks) == t
  {
    var gaps := ShieldStructure(t, 0, 0);
    assert t[0..] == t;
    DelimitPartsHeadless(gaps, Shield(t).blocks);
    UnshieldWeave(gaps, Shield(t).blocks, 0);
  }

  /** Unshielding text that holds no token head changes nothing, whatever the blocks. */
  lemma {:induction false} UnshieldWithoutTokens(html: string, blocks: seq<string>, k: nat)
    requires !Contains(html, TokenHead)
    ensures UnshieldFrom(html, blocks, k) == html
    decreases |blocks|
  {
    if blocks != [] {
      TokenShape(k);
      SkipHeadless(html, [], Token(k), Dollars + blocks[0] + Dollars);
      assert html + [] == html;
      UnshieldWithoutTokens(html, blocks[1..], k + 1);
    }
  }
}
