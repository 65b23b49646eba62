/** The inventory of fenced code blocks (scripts/inventario_bloques_codigo.py). */
module MarkdownFences {
  import opened StableSort
  import opened Trimming

  datatype CodeBlock = CodeBlock(
    file: string, lineStart: nat, lineEnd: nat, language: string, content: string, linesCount: nat)

  const FENCE: string := "```"

  predicate IsFence(line: string) {
    FENCE <= Trim(IsPyBlank, line)
  }

  function Language(line: string): string
    requires IsFence(line)
  {
    var name := Trim(IsPyBlank, Trim(IsPyBlank, line)[3..]);
    if name == "" then "plain" else name
  }

  function Join(lines: seq<string>): string {
    if lines == [] then "" else lines[0] + Join(lines[1..])
  }

  /** A fence begins, after blanks, with three back quotes. */
  lemma {:induction false} FenceExactly(line: string)
    ensures IsFence(line) <==>
      exists i :: 0 <= i && i + 3 <= |line| && (forall k :: 0 <= k < i ==> IsPyBlank(line[k]))
                  && line[i] == '`' && line[i + 1] == '`' && line[i + 2] == '`'
  {
    hide Trim;
    var i, j := TrimIsMiddle(IsPyBlank, line);
    var t := Trim(IsPyBlank, line);
    if IsFence(line) {
      assert t[0] == line[i] && t[1] == line[i + 1] && t[2] == line[i + 2];
    }
    if m :| 0 <= m && m + 3 <= |line| && (forall k :: 0 <= k < m ==> IsPyBlank(line[k]))
            && line[m] == '`' && line[m + 1] == '`' && line[m + 2] == '`' {
      assert !IsPyBlank(line[m]) && !IsPyBlank(line[m + 1]) && !IsPyBlank(line[m + 2]);
      assert i == m && m + 3 <= j;
      assert t[..3] == FENCE;
    }
  }

  /** The language is what stands behind the back quotes, trimmed; "plain" if nothing does. */
  lemma {:induction false} LanguageExactly(line: string, i: nat)
    requires i + 3 <= |line| && (forall k :: 0 <= k < i ==> IsPyBlank(line[k]))
    requires line[i] == '`' && line[i + 1] == '`' && line[i + 2] == '`'
    ensures IsFence(line)
    ensures (forall k :: i + 3 <= k < |line| ==> IsPyBlank(line[k])) ==> Language(line) == "plain"
    ensures forall m, n :: i + 3 <= m < n <= |line| && !IsPyBlank(line[m]) && !IsPyBlank(line[n - 1])
              && (forall k :: i + 3 <= k < m || n <= k < |line| ==> IsPyBlank(line[k]))
              ==> Language(line) == line[m..n]
  {
    hide Trim;
    FenceExactly(line);
    var a, b := TrimIsMiddle(IsPyBlank, line);
    var t := Trim(IsPyBlank, line);
    assert !IsPyBlank(line[i]) && !IsPyBlank(line[i + 2]);
    assert a == i && i + 3 <= b;
    var rest := t[3..];
    assert forall k :: 0 <= k < |rest| ==> rest[k] == line[i + 3 + k];
    var c, d := TrimIsMiddle(IsPyBlank, rest);
    if c < d {
      assert rest[c..d] == line[i + 3 + c..i + 3 + d];
    }
    forall m, n | i + 3 <= m < n <= |line| && !IsPyBlank(line[m]) && !IsPyBlank(line[n - 1])
                  && (forall k :: i + 3 <= k < m || n <= k < |line| ==> IsPyBlank(line[k]))
      ensures Language(line) == line[m..n]
    {
      assert n == b;
      assert rest[m - i - 3] == line[m] && rest[n - 1 - i - 3] == line[n - 1];
      assert c == m - i - 3 && d == n - i - 3;
    }
  }

  /** Contents are the lines one after the other. */
  lemma {:induction false} JoinIs(lines: seq<string>, more: seq<string>, line: string)
    ensures Join([]) == "" && Join([line]) == line && Join(lines + more) == Join(lines) + Join(more)
  {
    if lines == [] {
      assert lines + more == more && [line][1..] == [];
    } else {
      assert (lines + more)[1..] == lines[1..] + more;
      JoinIs(lines[1..], more, line);
    }
  }

  // ---------------------------------------------------------------- what the scan must find

  /** The line numbers of the fences, counted from 1. */
  function Fences(lines: seq<string>): seq<nat> {
    if lines == [] then []
    else
      var n := |lines|;
      Fences(lines[..n - 1]) + (if IsFence(lines[n - 1]) then [n] else [])
  }

  lemma {:induction false} FencesSpec(lines: seq<string>)
    ensures forall p :: p in Fences(lines) <==> 1 <= p <= |lines| && IsFence(lines[p - 1])
    ensures forall i, j :: 0 <= i < j < |Fences(lines)| ==> Fences(lines)[i] < Fences(lines)[j]
  {
    if lines != [] {
      var n := |lines|;
      var before := Fences(lines[..n - 1]);
      FencesSpec(lines[..n - 1]);
      forall i | 0 <= i < |before|
        ensures before[i] < n
      {
        assert before[i] in before;
      }
    }
  }

  /** The block between two fences. */
  function Closed(file: string, lines: seq<string>, first: nat, last: nat): CodeBlock
    requires 1 <= first < last <= |lines| && IsFence(lines[first - 1])
  {
    CodeBlock(file, first, last, Language(lines[first - 1]), Join(lines[first..last - 1]), last - 1 - first)
  }

  /** The block that the last, unmatched fence opens. */
  function Unclosed(file: string, lines: seq<string>, first: nat): CodeBlock
    requires 1 <= first <= |lines| && IsFence(lines[first - 1])
  {
    CodeBlock(file, first, |lines|, Language(lines[first - 1]) + " (INCOMPLETO)", Join(lines[first..]), |lines| - first)
  }

  /** The fences pair up in order; an odd one at the end opens an unclosed block. */
  ghost predicate IsInventory(file: string, lines: seq<string>, blocks: seq<CodeBlock>) {
    FencesSpec(lines);
    var fences := Fences(lines);
    && |blocks| == (|fences| + 1) / 2
    && forall j :: 0 <= j < |blocks| ==>
         var first := fences[2 * j];
         assert first in fences;
         if 2 * j + 1 < |fences| then
           assert fences[2 * j + 1] in fences;
           blocks[j] == Closed(file, lines, first, fences[2 * j + 1])
         else blocks[j] == Unclosed(file, lines, first)
  }

  /** Lines that are neither fences nor inside a block. */
  function Outside(lines: seq<string>): nat {
    if lines == [] then 0
    else
      var before := lines[..|lines| - 1];
      Outside(before) + (if !IsFence(lines[|lines| - 1]) && |Fences(before)| % 2 == 0 then 1 else 0)
  }

  function ContentLines(blocks: seq<CodeBlock>): nat {
    if blocks == [] then 0 else blocks[0].linesCount + ContentLines(blocks[1..])
  }

  lemma {:induction false} ContentLinesAppend(blocks: seq<CodeBlock>, b: CodeBlock)
    ensures ContentLines(blocks + [b]) == ContentLines(blocks) + b.linesCount
  {
    if blocks == [] {
      assert blocks + [b] == [b];
    } else {
      assert (blocks + [b])[1..] == blocks[1..] + [b];
      ContentLinesAppend(blocks[1..], b);
    }
  }

  // ---------------------------------------------------------------- the scan

  /** The variables of the loop. */
  datatype Scan = Scan(blocks: seq<CodeBlock>, inBlock: bool, start: nat, language: string, content: seq<string>)

  /** The fences seen so far have been paired; an odd last one has opened a block. */
  ghost predicate Paired(file: string, lines: seq<string>, fences: seq<nat>, s: Scan) {
    && |s.blocks| == |fences| / 2
    && (forall j :: 0 <= j < |s.blocks| ==>
          && 1 <= fences[2 * j] < fences[2 * j + 1] <= |lines| && IsFence(lines[fences[2 * j] - 1])
          && s.blocks[j] == Closed(file, lines, fences[2 * j], fences[2 * j + 1]))
    && (s.inBlock <==> |fences| % 2 == 1)
    && (s.inBlock ==> s.start == fences[|fences| - 1])
  }

  ghost predicate Open(lines: seq<string>, i: nat, s: Scan) {
    s.inBlock ==>
      && 1 <= s.start <= i <= |lines| && IsFence(lines[s.start - 1])
      && s.language == Language(lines[s.start - 1]) && s.content == lines[s.start..i]
  }

  ghost predicate Accounted(lines: seq<string>, i: nat, s: Scan)
    requires i <= |lines|
  {
    ContentLines(s.blocks) + (if s.inBlock then |s.content| else 0) + |Fences(lines[..i])| + Outside(lines[..i]) == i
  }

  ghost predicate Scanned(file: string, lines: seq<string>, i: nat, s: Scan) {
    i <= |lines| && Paired(file, lines, Fences(lines[..i]), s) && Open(lines, i, s) && Accounted(lines, i, s)
  }

  lemma {:induction false} NextLine(lines: seq<string>, i: nat)
    requires i < |lines|
    ensures Fences(lines[..i + 1]) == Fences(lines[..i]) + (if IsFence(lines[i]) then [i + 1] else [])
    ensures Outside(lines[..i + 1])
         == Outside(lines[..i]) + (if !IsFence(lines[i]) && |Fences(lines[..i])| % 2 == 0 then 1 else 0)
  {
    assert lines[..i + 1][..i] == lines[..i] && lines[..i + 1][i] == lines[i];
  }

  lemma {:induction false} StepOpens(file: string, lines: seq<string>, i: nat, s: Scan)
    requires Scanned(file, lines, i, s) && i < |lines| && IsFence(lines[i]) && !s.inBlock
    ensures Scanned(file, lines, i + 1, Scan(s.blocks, true, i + 1, Language(lines[i]), []))
  {
    hide IsFence, Language, Join;
    NextLine(lines, i);
  }

  lemma {:induction false} StepCloses(file: string, lines: seq<string>, i: nat, s: Scan)
    requires Scanned(file, lines, i, s) && i < |lines| && IsFence(lines[i]) && s.inBlock
    ensures var block := CodeBlock(file, s.start, i + 1, s.language, Join(s.content), |s.content|);
      Scanned(file, lines, i + 1, Scan(s.blocks + [block], false, 0, "", []))
  {
    hide IsFence, Language, Join;
    NextLine(lines, i);
    var block := CodeBlock(file, s.start, i + 1, s.language, Join(s.content), |s.content|);
    assert block == Closed(file, lines, s.start, i + 1);
    ContentLinesAppend(s.blocks, block);
    PairedAppend(file, lines, Fences(lines[..i]), s, i + 1, block);
  }

  lemma {:induction false} PairedAppend(file: string, lines: seq<string>, fences: seq<nat>, s: Scan, last: nat, block: CodeBlock)
    requires Paired(file, lines, fences, s) && s.inBlock
    requires 1 <= s.start < last <= |lines| && IsFence(lines[s.start - 1])
    requires block == Closed(file, lines, s.start, last)
    ensures Paired(file, lines, fences + [last], Scan(s.blocks + [block], false, 0, "", []))
  {
    hide IsFence, Language, Join, Closed;
    var fences', blocks' := fences + [last], s.blocks + [block];
    forall j | 0 <= j < |blocks'|
      ensures 1 <= fences'[2 * j] < fences'[2 * j + 1] <= |lines| && IsFence(lines[fences'[2 * j] - 1])
      ensures blocks'[j] == Closed(file, lines, fences'[2 * j], fences'[2 * j + 1])
    {
      if j < |s.blocks| {
        assert fences'[2 * j] == fences[2 * j] && fences'[2 * j + 1] == fences[2 * j + 1];
      } else {
        assert 2 * j == |fences| - 1;
      }
    }
  }

  lemma {:induction false} StepPasses(file: string, lines: seq<string>, i: nat, s: Scan)
    requires Scanned(file, lines, i, s) && i < |lines| && !IsFence(lines[i])
    ensures Scanned(file, lines, i + 1, if s.inBlock then s.(content := s.content + [lines[i]]) else s)
  {
    hide IsFence, Language, Join, Closed, Fences, Outside, ContentLines;
    NextLine(lines, i);
    assert Fences(lines[..i]) + [] == Fences(lines[..i]);
    if s.inBlock {
      assert lines[s.start..i + 1] == lines[s.start..i] + [lines[i]];
    }
  }

  /** At the end of the file, with the unclosed block added if there is one. */
  lemma {:induction false} ScanEnds(file: string, lines: seq<string>, s: Scan)
    requires Scanned(file, lines, |lines|, s)
    ensures var blocks := if s.inBlock
              then s.blocks + [CodeBlock(file, s.start, |lines|, s.language + " (INCOMPLETO)", Join(s.content), |s.content|)]
              else s.blocks;
      && IsInventory(file, lines, blocks)
      && ContentLines(blocks) + |Fences(lines)| + Outside(lines) == |lines|
  {
    hide IsFence, Language, Join, Closed, Fences, Outside, ContentLines;
    assert lines[..|lines|] == lines;
    FencesSpec(lines);
    if s.inBlock {
      var block := Unclosed(file, lines, s.start);
      ContentLinesAppend(s.blocks, block);
      assert block == CodeBlock(file, s.start, |lines|, s.language + " (INCOMPLETO)", Join(s.content), |s.content|);
      UnclosedEnds(file, lines, s, block);
    }
  }

  lemma {:induction false} UnclosedEnds(file: string, lines: seq<string>, s: Scan, block: CodeBlock)
    requires Paired(file, lines, Fences(lines), s) && s.inBlock
    requires 1 <= s.start <= |lines| && IsFence(lines[s.start - 1]) && block == Unclosed(file, lines, s.start)
    ensures IsInventory(file, lines, s.blocks + [block])
  {
    hide IsFence, Language, Join, Closed, Unclosed, Fences;
    FencesSpec(lines);
    var fences, blocks := Fences(lines), s.blocks + [block];
    assert |fences| % 2 == 1 && |blocks| == (|fences| + 1) / 2;
    forall j | 0 <= j < |s.blocks|
      ensures blocks[j] == s.blocks[j] && 2 * j + 1 < |fences|
    {
    }
  }

  /** `scan_markdown_file`: the blocks are exactly the fenced ones, and every line of the file
      is a fence, a content line of one block, or outside. */
  method ScanMarkdown(file: string, lines: seq<string>) returns (blocks: seq<CodeBlock>)
    ensures IsInventory(file, lines, blocks)
    ensures ContentLines(blocks) + |Fences(lines)| + Outside(lines) == |lines|
  {
    hide IsFence, Language, Join, Scanned, IsInventory;
    blocks := [];
    var inCodeBlock := false;
    var start: nat, language, content: seq<string> := 0, "", [];
    var i := 0;
    ScanStarts(file, lines);
    while i < |lines|
      invariant 0 <= i <= |lines|
      invariant Scanned(file, lines, i, Scan(blocks, inCodeBlock, start, language, content))
    {
      var line := lines[i];
      ghost var s := Scan(blocks, inCodeBlock, start, language, content);
      if IsFence(line) {
        if !inCodeBlock {
          StepOpens(file, lines, i, s);
          inCodeBlock := true;
          start := i + 1;
          language := Language(line);
          content := [];
        } else {
          StepCloses(file, lines, i, s);
          inCodeBlock := false;
          blocks := blocks + [CodeBlock(file, start, i + 1, language, Join(content), |content|)];
          start, language, content := 0, "", [];
        }
      } else {
        StepPasses(file, lines, i, s);
        if inCodeBlock {
          content := content + [line];
        }
      }
      i := i + 1;
    }
    ScanEnds(file, lines, Scan(blocks, inCodeBlock, start, language, content));
    if inCodeBlock {
      blocks := blocks + [CodeBlock(file, start, |lines|, language + " (INCOMPLETO)", Join(content), |content|)];
    }
  }

  lemma {:induction false} ScanStarts(file: string, lines: seq<string>)
    ensures Scanned(file, lines, 0, Scan([], false, 0, "", []))
  {
  }

  predicate StrictlyInside(b: CodeBlock, p: int) {
    b.lineStart < p < b.lineEnd
  }

  /** Blocks are disjoint, come in the order of the file, and have no fence inside. */
  lemma {:induction false} BlocksAreDisjoint(file: string, lines: seq<string>, blocks: seq<CodeBlock>)
    requires IsInventory(file, lines, blocks)
    ensures forall i, j :: 0 <= i < j < |blocks| ==> blocks[i].lineEnd < blocks[j].lineStart
    ensures forall i, p :: 0 <= i < |blocks| && StrictlyInside(blocks[i], p) ==> 1 <= p <= |lines| && !IsFence(lines[p - 1])
  {
    hide IsFence, Language, Join;
    FencesSpec(lines);
    var fences := Fences(lines);
    forall i, p | 0 <= i < |blocks| && StrictlyInside(blocks[i], p)
      ensures 1 <= p <= |lines| && !IsFence(lines[p - 1])
    {
      assert fences[2 * i] in fences;
      assert 2 * i + 1 < |fences| ==> fences[2 * i + 1] in fences;
      assert blocks[i].lineEnd <= |lines|;
      forall k | 0 <= k < |fences|
        ensures fences[k] != p
      {
        assert k < 2 * i ==> fences[k] < fences[2 * i];
        assert 2 * i + 1 < k ==> fences[2 * i + 1] < fences[k];
      }
      assert p !in fences;
    }
  }

  // ---------------------------------------------------------------- the report

  function HasKey(key: CodeBlock -> string, k: string): CodeBlock -> bool {
    (b: CodeBlock) => key(b) == k
  }

  function KeyIn(key: CodeBlock -> string, ks: set<string>): CodeBlock -> bool {
    (b: CodeBlock) => key(b) in ks
  }

  ghost predicate IsGrouping(blocks: seq<CodeBlock>, key: CodeBlock -> string, groups: map<string, seq<CodeBlock>>) {
    && (forall b :: b in blocks ==> key(b) in groups)
    && (forall k :: k in groups ==> groups[k] == Filter(HasKey(key, k), blocks) && groups[k] != [])
  }

  /** The loops of `generate_report` that fill `by_file` and `by_language`. */
  method GroupBy(blocks: seq<CodeBlock>, key: CodeBlock -> string) returns (groups: map<string, seq<CodeBlock>>)
    ensures IsGrouping(blocks, key, groups)
  {
    hide Filter;
    groups := map[];
    var i := 0;
    NoGroups(key, blocks);
    while i < |blocks|
      invariant 0 <= i <= |blocks|
      invariant Grouped(blocks[..i], key, groups)
    {
      var block := blocks[i];
      assert blocks[..i + 1] == blocks[..i] + [block];
      GroupStep(blocks[..i], block, key, groups);
      if key(block) !in groups {
        groups := groups[key(block) := []];
      }
      groups := groups[key(block) := groups[key(block)] + [block]];
      i := i + 1;
    }
    assert blocks[..i] == blocks;
  }

  /** The grouping of the blocks seen so far; other keys have no block. */
  ghost predicate Grouped(blocks: seq<CodeBlock>, key: CodeBlock -> string, groups: map<string, seq<CodeBlock>>) {
    IsGrouping(blocks, key, groups) && forall k :: k !in groups ==> Filter(HasKey(key, k), blocks) == []
  }

  lemma {:induction false} NoGroups(key: CodeBlock -> string, blocks: seq<CodeBlock>)
    ensures Grouped(blocks[..0], key, map[])
  {
  }

  lemma {:induction false} GroupStep(before: seq<CodeBlock>, block: CodeBlock, key: CodeBlock -> string,
                                     groups: map<string, seq<CodeBlock>>)
    requires Grouped(before, key, groups)
    ensures var k := key(block);
      var old' := if k in groups then groups[k] else [];
      Grouped(before + [block], key, groups[k := old' + [block]])
  {
    forall k
      ensures Filter(HasKey(key, k), before + [block])
           == Filter(HasKey(key, k), before) + (if key(block) == k then [block] else [])
    {
      FilterConcat(HasKey(key, k), before, [block]);
      FilterCons(HasKey(key, k), block, []);
    }
  }

  /** Blocks and content lines of the groups named in `ks`, added up. */
  ghost function GroupTotal(groups: map<string, seq<CodeBlock>>, ks: set<string>): (nat, nat)
    requires ks <= groups.Keys
  {
    if ks == {} then (0, 0)
    else
      var k :| k in ks;
      var (n, m) := GroupTotal(groups, ks - {k});
      (n + |groups[k]|, m + ContentLines(groups[k]))
  }

  lemma {:induction false} SplitKeys(blocks: seq<CodeBlock>, key: CodeBlock -> string, ks: set<string>, k: string)
    requires k in ks
    ensures var all, one, rest := Filter(KeyIn(key, ks), blocks), Filter(HasKey(key, k), blocks), Filter(KeyIn(key, ks - {k}), blocks);
      |all| == |one| + |rest| && ContentLines(all) == ContentLines(one) + ContentLines(rest)
  {
    if blocks != [] {
      SplitKeys(blocks[1..], key, ks, k);
      ContentLinesCons(blocks[0], Filter(KeyIn(key, ks), blocks[1..]));
      ContentLinesCons(blocks[0], Filter(HasKey(key, k), blocks[1..]));
      ContentLinesCons(blocks[0], Filter(KeyIn(key, ks - {k}), blocks[1..]));
    }
  }

  lemma {:induction false} ContentLinesCons(b: CodeBlock, blocks: seq<CodeBlock>)
    ensures ContentLines([b] + blocks) == b.linesCount + ContentLines(blocks)
    ensures [] + blocks == blocks
  {
  }

  lemma {:induction false} NoneIn(blocks: seq<CodeBlock>, key: CodeBlock -> string)
    ensures Filter(KeyIn(key, {}), blocks) == [] && ContentLines([]) == 0
  {
    FilterNone(KeyIn(key, {}), blocks);
  }

  lemma {:induction false} GroupIs(blocks: seq<CodeBlock>, key: CodeBlock -> string, groups: map<string, seq<CodeBlock>>, k: string)
    requires IsGrouping(blocks, key, groups) && k in groups
    ensures groups[k] == Filter(HasKey(key, k), blocks)
  {
  }

  lemma {:induction false} GroupTotalIs(blocks: seq<CodeBlock>, key: CodeBlock -> string,
                                        groups: map<string, seq<CodeBlock>>, ks: set<string>)
    requires IsGrouping(blocks, key, groups) && ks <= groups.Keys
    ensures GroupTotal(groups, ks) == (|Filter(KeyIn(key, ks), blocks)|, ContentLines(Filter(KeyIn(key, ks), blocks)))
    decreases ks
  {
    hide Filter, ContentLines, IsGrouping;
    if ks == {} {
      NoneIn(blocks, key);
    } else {
      var k :| k in ks && GroupTotal(groups, ks)
                       == (GroupTotal(groups, ks - {k}).0 + |groups[k]|, GroupTotal(groups, ks - {k}).1 + ContentLines(groups[k]));
      GroupIs(blocks, key, groups, k);
      GroupTotalIs(blocks, key, groups, ks - {k});
      SplitKeys(blocks, key, ks, k);
    }
  }

  /** Grouping loses nothing: by file or by language, the groups add up to the block total and
      to the line total of the whole inventory. */
  lemma {:induction false} GroupsAddUp(blocks: seq<CodeBlock>, key: CodeBlock -> string, groups: map<string, seq<CodeBlock>>)
    requires IsGrouping(blocks, key, groups)
    ensures GroupTotal(groups, groups.Keys) == (|blocks|, ContentLines(blocks))
  {
    GroupTotalIs(blocks, key, groups, groups.Keys);
    FilterAll(KeyIn(key, groups.Keys), blocks);
  }
}
