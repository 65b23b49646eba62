/** The typing-error baseline (qa/mypy_baseline_guard.py): a set of fingerprints kept as lines of text. */
module MypyBaseline {
  import opened Basics
  import opened StableSort
  import opened LexOrder
  import opened Trimming

  // ---------------------------------------------------------------- lines of text

  /** The characters at which `str.splitlines` breaks. */
  predicate IsBreak(c: char) {
    '\n' <= c <= '\r' || '\U{001C}' <= c <= '\U{001E}' || c == '\U{0085}' || c == '\U{2028}' || c == '\U{2029}'
  }

  /** The length of the longest prefix without a break. */
  function LineLength(s: string): (n: nat)
    ensures n <= |s|
    ensures forall i :: 0 <= i < n ==> !IsBreak(s[i])
    ensures n < |s| ==> IsBreak(s[n])
  {
    if s == "" || IsBreak(s[0]) then 0 else 1 + LineLength(s[1..])
  }

  /** `\r\n` is one break. */
  function BreakLength(s: string): nat {
    if |s| >= 2 && s[0] == '\r' && s[1] == '\n' then 2 else 1
  }

  function SplitLines(s: string): seq<string> {
    if s == "" then []
    else
      var n := LineLength(s);
      if n == |s| then [s] else [s[..n]] + SplitLines(s[n..][BreakLength(s[n..])..])
  }

  /** `"\n".join(lines)` and a final newline. */
  function TextOf(lines: seq<string>): string {
    if lines == [] then "" else lines[0] + "\n" + TextOf(lines[1..])
  }

  predicate NoBreak(s: string) {
    forall i :: 0 <= i < |s| ==> !IsBreak(s[i])
  }

  lemma {:induction false} SplitFirst(line: string, rest: string)
    requires NoBreak(line)
    ensures SplitLines(line + "\n" + rest) == [line] + SplitLines(rest)
  {
    var s := line + "\n" + rest;
    assert s[|line|] == '\n' && IsBreak(s[|line|]);
    assert LineLength(s) == |line|;
    assert s[..|line|] == line && s[|line|..] == "\n" + rest;
    assert s[|line|..][1..] == rest;
  }

  lemma {:induction false} SplitText(lines: seq<string>)
    requires forall l :: l in lines ==> NoBreak(l)
    ensures SplitLines(TextOf(lines)) == lines
  {
    if lines != [] {
      SplitFirst(lines[0], TextOf(lines[1..]));
      SplitText(lines[1..]);
    }
  }

  lemma {:induction false} SplitNoBreaks(s: string)
    ensures forall l :: l in SplitLines(s) ==> NoBreak(l)
    decreases |s|
  {
    if s != "" {
      var n := LineLength(s);
      if n < |s| {
        SplitNoBreaks(s[n..][BreakLength(s[n..])..]);
      }
    }
  }

  // ---------------------------------------------------------------- the baseline file

  predicate IsEntry(line: string) {
    var t := Trim(IsPyBlank, line);
    t != "" && t[0] != '#'
  }

  /** `_load_baseline` on the text of the file. */
  function Load(text: string): set<string> {
    set line | line in SplitLines(text) && IsEntry(line) :: Trim(IsPyBlank, line)
  }

  /** Ascending code points at the first difference. */
  ghost predicate Ascends(a: string, b: string) {
    a <= b || exists k :: 0 <= k < |a| && k < |b| && a[..k] == b[..k] && a[k] < b[k]
  }

  lemma {:induction false} SortedAscends(lines: seq<string>)
    ensures Sorted(StringLe, lines) <==> forall i, j :: 0 <= i < j < |lines| ==> Ascends(lines[i], lines[j])
  {
    hide StringLe, Ascends;
    forall a, b
      ensures StringLe(a, b) <==> Ascends(a, b)
    {
      AscendsIsStringLe(a, b);
    }
  }

  lemma {:induction false} AscendsIsStringLe(a: string, b: string)
    ensures StringLe(a, b) <==> Ascends(a, b)
  {
    StringLeMeans(a, b);
  }

  ghost predicate IsListing(lines: seq<string>, fingerprints: set<string>) {
    && (forall f :: f in lines <==> f in fingerprints)
    && (forall i, j :: 0 <= i < j < |lines| ==> lines[i] != lines[j])
    && forall i, j :: 0 <= i < j < |lines| ==> Ascends(lines[i], lines[j])
  }

  lemma {:induction false} StringOrder()
    ensures TotalPreorder(StringLe)
    ensures forall s :: Separates(StringLe, s)
  {
    forall x: string, y: string, z: string
      ensures StringLe(x, y) || StringLe(y, x)
      ensures StringLe(x, y) && StringLe(y, x) ==> x == y
      ensures StringLe(x, y) && StringLe(y, z) ==> StringLe(x, z)
    {
      StringLeIsTotalOrder(x, y, z);
    }
  }

  /** `_write_baseline`: one line per fingerprint, in order; the text is determined by the set.
      Loading it gives the set back exactly when every fingerprint is storable. */
  method Write(fingerprints: set<string>) returns (text: string)
    ensures exists lines :: IsListing(lines, fingerprints) && text == TextOf(lines)
    ensures forall lines :: IsListing(lines, fingerprints) ==> text == TextOf(lines)
    ensures Load(text) == fingerprints <==> forall f :: f in fingerprints ==> Storable(f)
  {
    var rest := fingerprints;
    var listed: seq<string> := [];
    while rest != {}
      invariant rest <= fingerprints
      invariant forall f :: f in listed <==> f in fingerprints - rest
      invariant forall i, j :: 0 <= i < j < |listed| ==> listed[i] != listed[j]
      decreases rest
    {
      var f :| f in rest;
      rest := rest - {f};
      listed := listed + [f];
    }
    StringOrder();
    SortSorts(StringLe, listed);
    PermutationKeepsDistinct(listed, Sort(StringLe, listed));
    ghost var lines := Sort(StringLe, listed);
    text := TextOf(Sort(StringLe, listed));
    SortedAscends(lines);
    assert IsListing(lines, fingerprints);
    RoundTrip(fingerprints, lines);
    forall other | IsListing(other, fingerprints)
      ensures text == TextOf(other)
    {
      ListingIsUnique(other, lines, fingerprints);
    }
  }

  lemma {:induction false} ListingIsUnique(a: seq<string>, b: seq<string>, fingerprints: set<string>)
    requires IsListing(a, fingerprints) && IsListing(b, fingerprints)
    ensures a == b
  {
    StringOrder();
    SameMembersSameMultiset(a, b);
    SortedAscends(a);
    SortedAscends(b);
    SortedSeparatedIsUnique(StringLe, a, b);
  }

  /** Fingerprints that survive the text file. */
  ghost predicate Storable(f: string) {
    f != "" && f[0] != '#' && NoBreak(f) && IsTrimmed(IsPyBlank, f)
  }

  lemma {:induction false} LoadedAreStorable(text: string)
    ensures forall f :: f in Load(text) ==> Storable(f)
  {
    forall f | f in Load(text)
      ensures Storable(f)
    {
      var line :| line in SplitLines(text) && IsEntry(line) && f == Trim(IsPyBlank, line);
      SplitNoBreaks(text);
      TrimSpec(IsPyBlank, line);
      var keeps := (c: char) => !IsBreak(c);
      forall c | c in line
        ensures keeps(c)
      {
        var i :| 0 <= i < |line| && line[i] == c;
      }
      TrimKeeps(IsPyBlank, line, keeps);
      assert forall i :: 0 <= i < |f| ==> f[i] in f && keeps(f[i]);
    }
  }

  /** Loading what was written gives back the same set exactly when every fingerprint is
      storable: not blank, trimmed, free of line breaks and not starting with `#`. */
  lemma {:induction false} RoundTrip(fingerprints: set<string>, lines: seq<string>)
    requires IsListing(lines, fingerprints)
    ensures Load(TextOf(lines)) == fingerprints <==> forall f :: f in fingerprints ==> Storable(f)
  {
    if forall f :: f in fingerprints ==> Storable(f) {
      SplitText(lines);
      forall f | f in lines
        ensures Trim(IsPyBlank, f) == f && IsEntry(f)
      {
        TrimSpec(IsPyBlank, f);
      }
      assert forall f :: f in fingerprints ==> f in SplitLines(TextOf(lines)) && IsEntry(f) && f == Trim(IsPyBlank, f);
      assert forall f :: f in Load(TextOf(lines)) ==> f in fingerprints;
    }
    if Load(TextOf(lines)) == fingerprints {
      LoadedAreStorable(TextOf(lines));
    }
  }

  // ---------------------------------------------------------------- domains

  datatype Domain = Accounting | Accounts | Facturacion | Fuel | Other

  predicate Contains(s: string, sub: string) {
    sub <= s || (s != "" && Contains(s[1..], sub))
  }

  function Slashes(s: string): string {
    if s == "" then "" else [if s[0] == '\\' then '/' else s[0]] + Slashes(s[1..])
  }

  function DomainFor(path: string): Domain {
    var p := Slashes(path);
    if Contains(p, "/apps/kernels/accounting/") || Contains(p, "/apps/modulos/accounting/") then Accounting
    else if Contains(p, "/apps/modulos/accounts/") then Accounts
    else if Contains(p, "/apps/kernels/facturacion/") || Contains(p, "/apps/modulos/facturacion/") then Facturacion
    else if Contains(p, "/apps/modulos/estacion_servicios/") || Contains(p, "/fuel_") then Fuel
    else Other
  }

  /** `fp.split("|", 1)[0]`. */
  function PathOf(fingerprint: string): string {
    if fingerprint == "" || fingerprint[0] == '|' then "" else [fingerprint[0]] + PathOf(fingerprint[1..])
  }

  function InDomain(fingerprints: set<string>, d: Domain): set<string> {
    set f | f in fingerprints && DomainFor(PathOf(f)) == d
  }

  /** `_by_domain`: how many fingerprints each domain has. */
  method ByDomain(fingerprints: set<string>) returns (out: map<Domain, nat>)
    ensures forall d :: d in out && out[d] == |InDomain(fingerprints, d)|
  {
    out := map[Accounting := 0, Accounts := 0, Facturacion := 0, Fuel := 0, Other := 0];
    var rest := fingerprints;
    forall d: Domain
      ensures d in out && out[d] == 0 && InDomain(fingerprints - rest, d) == {}
    {
      match d
      case Accounting =>
      case Accounts =>
      case Facturacion =>
      case Fuel =>
      case Other =>
    }
    while rest != {}
      invariant rest <= fingerprints
      invariant forall d :: d in out && out[d] == |InDomain(fingerprints - rest, d)|
      decreases rest
    {
      var fp :| fp in rest;
      DomainGrows(fingerprints - rest, fp);
      assert fingerprints - (rest - {fp}) == fingerprints - rest + {fp};
      var d := DomainFor(PathOf(fp));
      out := out[d := out[d] + 1];
      rest := rest - {fp};
    }
    assert fingerprints - rest == fingerprints;
  }

  lemma {:induction false} DomainGrows(s: set<string>, fp: string)
    requires fp !in s
    ensures forall d :: |InDomain(s + {fp}, d)| == |InDomain(s, d)| + (if DomainFor(PathOf(fp)) == d then 1 else 0)
  {
    hide DomainFor, PathOf;
    forall d
      ensures |InDomain(s + {fp}, d)| == |InDomain(s, d)| + (if DomainFor(PathOf(fp)) == d then 1 else 0)
    {
      if DomainFor(PathOf(fp)) == d {
        assert InDomain(s + {fp}, d) == InDomain(s, d) + {fp};
      } else {
        assert InDomain(s + {fp}, d) == InDomain(s, d);
      }
    }
  }

  // ---------------------------------------------------------------- the check

  datatype Outcome = MissingBaseline | Compared(added: set<string>, resolved: set<string>, exitCode: int)

  /** `_cmd_check` on the fingerprints of a report and the text of the baseline file. */
  function Check(current: set<string>, baselineText: Option<string>): Outcome {
    match baselineText
    case None => MissingBaseline
    case Some(text) =>
      var baseline := Load(text);
      Compared(current - baseline, baseline - current, if current - baseline != {} then 1 else 0)
  }

  lemma {:induction false} DifferenceCounts(a: set<string>, b: set<string>)
    ensures |a| + |b - a| == |b| + |a - b|
  {
  }

  /** The delta report balances, overall and in every domain: current + resolved = baseline + new. */
  lemma {:induction false} DeltaBalances(current: set<string>, text: string)
    ensures var baseline := Load(text);
      var outcome := Check(current, Some(text));
      && |current| + |outcome.resolved| == |baseline| + |outcome.added|
      && forall d :: |InDomain(current, d)| + |InDomain(outcome.resolved, d)|
                  == |InDomain(baseline, d)| + |InDomain(outcome.added, d)|
  {
    hide DomainFor, PathOf, Load;
    var baseline := Load(text);
    DifferenceCounts(current, baseline);
    forall d
      ensures |InDomain(current, d)| + |InDomain(baseline - current, d)|
           == |InDomain(baseline, d)| + |InDomain(current - baseline, d)|
    {
      DifferenceCounts(InDomain(current, d), InDomain(baseline, d));
      assert InDomain(baseline, d) - InDomain(current, d) == InDomain(baseline - current, d);
      assert InDomain(current, d) - InDomain(baseline, d) == InDomain(current - baseline, d);
    }
  }

  /** A refresh followed by a check of the same report finds nothing new and nothing resolved
      exactly when all its fingerprints are storable. */
  lemma {:induction false} RefreshThenCheck(current: set<string>, lines: seq<string>)
    requires IsListing(lines, current)
    ensures Check(current, Some(TextOf(lines))) == Compared({}, {}, 0) <==> forall f :: f in current ==> Storable(f)
  {
    RoundTrip(current, lines);
    var baseline := Load(TextOf(lines));
    if current - baseline == {} && baseline - current == {} {
      assert forall f :: f in current ==> f in baseline by {
        assert forall f :: f in current && f !in baseline ==> f in current - baseline;
      }
      assert forall f :: f in baseline ==> f in current by {
        assert forall f :: f in baseline && f !in current ==> f in baseline - current;
      }
      assert baseline == current;
    }
  }

  // ---------------------------------------------------------------- the values of the source

  /** The check fails with 1 exactly when there is a new fingerprint, with 2 when there is no baseline. */
  lemma {:induction false} CheckVerdict(current: set<string>, text: string)
    ensures Check(current, None) == MissingBaseline
    ensures Check(current, Some(text)).Compared?
    ensures Check(current, Some(text)).exitCode == if exists f :: f in current && f !in Load(text) then 1 else 0
    ensures forall f :: f in Check(current, Some(text)).added <==> f in current && f !in Load(text)
    ensures forall f :: f in Check(current, Some(text)).resolved <==> f in Load(text) && f !in current
  {
    hide Load;
    if exists f :: f in current && f !in Load(text) {
      var f :| f in current && f !in Load(text);
      assert f in current - Load(text);
    }
  }

  /** Every line, the last one too, ends with a line feed. */
  lemma {:induction false} LinesEnd(lines: seq<string>, line: string)
    ensures TextOf([]) == "" && TextOf(lines + [line]) == TextOf(lines) + line + [10 as char]
  {
    if lines == [] {
      assert [line][1..] == [] && lines + [line] == [line];
    } else {
      assert (lines + [line])[1..] == lines[1..] + [line];
      LinesEnd(lines[1..], line);
    }
  }

  /** The line breaks of `str.splitlines`, by code point. */
  lemma {:induction false} BreaksAre(c: char)
    ensures IsBreak(c) <==> c as int in {0xA, 0xB, 0xC, 0xD, 0x1C, 0x1D, 0x1E, 0x85, 0x2028, 0x2029}
  {
  }

  /** Lines end at breaks, of which a carriage return with a line feed is one; a last line needs none. */
  lemma {:induction false} SplitLinesIs(line: string, b: char, rest: string)
    requires NoBreak(line) && IsBreak(b)
    ensures SplitLines("") == [] && (line != "" ==> SplitLines(line) == [line])
    ensures !(b == '\r' && rest != "" && rest[0] == '\n') ==> SplitLines(line + [b] + rest) == [line] + SplitLines(rest)
    ensures SplitLines(line + "\r\n" + rest) == [line] + SplitLines(rest)
  {
    BreakAt(line, b, rest);
    BreakAt(line, '\r', "\n" + rest);
    assert line + ['\r'] + ("\n" + rest) == line + "\r\n" + rest;
    assert ("\n" + rest)[1..] == rest;
  }

  lemma {:induction false} BreakAt(line: string, b: char, rest: string)
    requires NoBreak(line) && IsBreak(b)
    ensures var s := line + [b] + rest;
      && LineLength(line) == |line| && LineLength(s) == |line| && s[..|line|] == line && s[|line|..] == [b] + rest
      && BreakLength([b] + rest) == (if b == '\r' && rest != "" && rest[0] == '\n' then 2 else 1)
      && ([b] + rest)[1..] == rest
      && SplitLines(s) == [line] + SplitLines(s[|line|..][BreakLength(s[|line|..])..])
  {
    var s := line + [b] + rest;
    assert s[|line|] == b;
    assert s[|line|..] == [b] + rest;
  }

  /** A path belongs to the first of these domains that it names. */
  lemma {:induction false} DomainIs(path: string)
    ensures var p := Slashes(path);
      DomainFor(path) ==
        if Contains(p, "/apps/kernels/accounting/") || Contains(p, "/apps/modulos/accounting/") then Accounting
        else if Contains(p, "/apps/modulos/accounts/") then Accounts
        else if Contains(p, "/apps/kernels/facturacion/") || Contains(p, "/apps/modulos/facturacion/") then Facturacion
        else if Contains(p, "/apps/modulos/estacion_servicios/") || Contains(p, "/fuel_") then Fuel
        else Other
  {
    hide Contains, Slashes;
  }

  ghost predicate Occurs(sub: string, s: string) {
    exists i :: 0 <= i <= |s| && sub <= s[i..]
  }

  lemma {:induction false} ContainsIsOccurs(s: string, sub: string)
    ensures Contains(s, sub) <==> Occurs(sub, s)
  {
    assert s[0..] == s;
    if s != "" {
      ContainsIsOccurs(s[1..], sub);
      if i :| 0 <= i <= |s[1..]| && sub <= s[1..][i..] {
        assert s[i + 1..] == s[1..][i..];
      }
      if i :| 0 < i <= |s| && sub <= s[i..] {
        assert s[1..][i - 1..] == s[i..];
      }
    }
  }

  /** Back slashes count as slashes. */
  lemma {:induction false} SlashesIs(s: string)
    ensures |Slashes(s)| == |s| && forall i :: 0 <= i < |s| ==> Slashes(s)[i] == if s[i] == '\\' then '/' else s[i]
  {
    if s != "" {
      SlashesIs(s[1..]);
    }
  }

  /** The path of a fingerprint ends at its first bar. */
  lemma {:induction false} PathIs(f: string)
    ensures PathOf(f) <= f && '|' !in PathOf(f) && (|PathOf(f)| < |f| ==> f[|PathOf(f)|] == '|')
  {
    if f != "" && f[0] != '|' {
      PathIs(f[1..]);
    }
  }
}
