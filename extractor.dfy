/** The report metric extractor: one metric record per report, assembled by
    scanning the report's trimmed, non-empty text lines in document order and
    matching lower-cased keywords against four metric kinds. */
module ReportExtractor {
  import opened Wrappers
  import opened NumberTokenizer

  /** The `out` dictionary built for one report. `operatingProfitAmt` stands
      for the key that the source adds only when it is first assigned. */
  datatype MetricRecord = MetricRecord(
    path: string,
    period: string,
    revenueCr: Option<real>,
    netProfitCr: Option<real>,
    operatingMarginPct: Option<real>,
    operatingProfitAmt: Option<real>,
    eps: Option<real>)

  /** Python truthiness of an optional number: present and nonzero. */
  predicate Truthy(n: Option<real>) { n.Some? && n.value != 0.0 }

  // ---------------------------------------------------------------- periods

  /** `os.path.basename`, with `/` as the only separator: the text after the last `/`. */
  function Basename(path: string): (b: string)
    ensures |b| <= |path|
  {
    if path == [] then []
    else if path[|path| - 1] == '/' then []
    else Basename(path[..|path| - 1]) + [path[|path| - 1]]
  }

  /** `str.replace(pat, "")`: occurrences found left to right, without overlap, removed. */
  function RemoveAll(s: string, pat: string): (r: string)
    requires |pat| > 0
    ensures |r| <= |s|
  {
    if |s| < |pat| then s
    else if s[..|pat|] == pat then RemoveAll(s[|pat|..], pat)
    else [s[0]] + RemoveAll(s[1..], pat)
  }

  /** The period label: the basename with every `.pdf` removed. */
  function Period(path: string): string {
    RemoveAll(Basename(path), ".pdf")
  }

  /** A name without a `.` loses exactly its `.pdf` extension. */
  lemma {:induction false} RemovePdfFromName(name: string)
    requires forall i :: 0 <= i < |name| ==> name[i] != '.'
    ensures RemoveAll(name + ".pdf", ".pdf") == name
  {
    if name == [] {
      assert [] + ".pdf" == ".pdf";
      assert ".pdf"[4..] == [];
    } else {
      assert (name + ".pdf")[..4] != ".pdf" by { assert (name + ".pdf")[0] == name[0]; }
      assert (name + ".pdf")[1..] == name[1..] + ".pdf";
      RemovePdfFromName(name[1..]);
      assert [name[0]] + name[1..] == name;
    }
  }

  /** A report `dir/NAME.pdf` whose NAME has no `.` and no `/` gets period NAME. */
  lemma PeriodOfReportFile(dir: string, name: string)
    requires forall i :: 0 <= i < |name| ==> name[i] != '.' && name[i] != '/'
    ensures Period(dir + "/" + name + ".pdf") == name
  {
    var path := dir + "/" + name + ".pdf";
    var file := name + ".pdf";
    assert path == (dir + "/") + file;
    var b := Basename(path);
    assert forall i :: 0 <= i < |file| ==> file[i] != '/' by {
      forall i | 0 <= i < |file| ensures file[i] != '/' {
        if i >= |name| { assert file[i] == ".pdf"[i - |name|]; }
      }
    }
    BasenameAfterSlash(dir, file);
    RemovePdfFromName(name);
  }

  lemma {:induction false} BasenameAfterSlash(dir: string, file: string)
    requires forall i :: 0 <= i < |file| ==> file[i] != '/'
    ensures Basename(dir + "/" + file) == file
  {
    var path := dir + "/" + file;
    if file == [] {
      assert path[|path| - 1] == '/';
    } else {
      var last := file[|file| - 1];
      assert path[|path| - 1] == last;
      assert path[..|path| - 1] == dir + "/" + file[..|file| - 1];
      BasenameAfterSlash(dir, file[..|file| - 1]);
      assert file[..|file| - 1] + [last] == file;
    }
  }

  lemma {:induction false} BasenameNoSlash(file: string)
    requires forall i :: 0 <= i < |file| ==> file[i] != '/'
    ensures Basename(file) == file
  {
    if file != [] {
      BasenameNoSlash(file[..|file| - 1]);
      assert file[..|file| - 1] + [file[|file| - 1]] == file;
    }
  }

  /** `replace` copies every position where the pattern does not start. */
  lemma {:induction false} RemoveAllSkips(x: string, y: string, pat: string)
    requires |pat| > 0
    requires forall i :: 0 <= i < |x| ==> !OccursAt(x + y, pat, i)
    ensures RemoveAll(x + y, pat) == x + RemoveAll(y, pat)
  {
    var s := x + y;
    if x == [] {
      assert s == y;
    } else if |s| < |pat| {
      assert RemoveAll(y, pat) == y;
    } else {
      assert !OccursAt(s, pat, 0);
      assert s[0..|pat|] == s[..|pat|];
      var t := x[1..] + y;
      assert s[1..] == t;
      assert RemoveAll(s, pat) == [x[0]] + RemoveAll(t, pat);
      NoOccurrenceAfterFirst(s, pat, |x|);
      RemoveAllSkips(x[1..], y, pat);
      assert [x[0]] + x[1..] == x;
    }
  }

  lemma NoOccurrenceAfterFirst(s: string, pat: string, n: nat)
    requires 0 < n <= |s|
    requires forall i :: 0 <= i < n ==> !OccursAt(s, pat, i)
    ensures forall i :: 0 <= i < n - 1 ==> !OccursAt(s[1..], pat, i)
  {
    forall i | 0 <= i < n - 1
      ensures !OccursAt(s[1..], pat, i)
    {
      assert !OccursAt(s, pat, i + 1);
      if i + |pat| <= |s| - 1 {
        assert s[1..][i..i + |pat|] == s[i + 1..i + 1 + |pat|];
      }
    }
  }

  /** `.pdf` cannot start inside a prefix without a `.`. */
  lemma NoPdfInDotFree(x: string, y: string)
    requires forall i :: 0 <= i < |x| ==> x[i] != '.'
    ensures forall i :: 0 <= i < |x| ==> !OccursAt(x + y, ".pdf", i)
  {
    forall i | 0 <= i < |x|
      ensures !OccursAt(x + y, ".pdf", i)
    {
      if i + 4 <= |x + y| {
        assert (x + y)[i..i + 4][0] == x[i];
      }
    }
  }

  /** `.pdf` alone is removed whole. */
  lemma RemoveAllPdf(y: string)
    ensures RemoveAll(".pdf" + y, ".pdf") == RemoveAll(y, ".pdf")
  {
    var s := ".pdf" + y;
    assert s[..4] == ".pdf" && s[4..] == y;
  }

  /** `replace(".pdf", "")` removes every `.pdf`, not only the extension: a
      dot elsewhere in the name stays. */
  lemma PeriodOfDottedName()
    ensures Period("reports/Q1.FY25.pdf") == "Q1.FY25"
  {
    BasenameAfterSlash("reports", "Q1.FY25.pdf");
    assert "reports" + "/" + "Q1.FY25.pdf" == "reports/Q1.FY25.pdf";
    assert "Q1.FY25.pdf" == "Q1.FY25" + (".pdf" + "");
    RemoveAllSkips("Q1.FY25", ".pdf" + "", ".pdf");
    RemoveAllPdf("");
  }

  /** A doubled extension is removed twice. */
  lemma PeriodOfDoubledExtension()
    ensures Period("a.pdf.pdf") == "a"
  {
    BasenameNoSlash("a.pdf.pdf");
    assert "a.pdf.pdf" == "a" + (".pdf" + (".pdf" + ""));
    NoPdfInDotFree("a", ".pdf" + (".pdf" + ""));
    RemoveAllSkips("a", ".pdf" + (".pdf" + ""), ".pdf");
    RemoveAllPdf(".pdf" + "");
    RemoveAllPdf("");
  }

  /** The record a report starts from: its path, its period, no metric. */
  function NewRecord(path: string): (r: MetricRecord)
    ensures r.path == path && r.period == Period(path)
    ensures r.revenueCr.None? && r.netProfitCr.None? && r.eps.None?
    ensures r.operatingMarginPct.None? && r.operatingProfitAmt.None?
  {
    MetricRecord(path, Period(path), None, None, None, None, None)
  }

  // ---------------------------------------------------------------- keywords

  function LowerChar(c: char): char {
    if 'A' <= c <= 'Z' then (c as int - 'A' as int + 'a' as int) as char else c
  }

  /** `str.lower()` on ASCII text: the one string without capital letters
      that equals `s` up to case. */
  function Lower(s: string): (r: string)
    ensures SameUpToCase(s, r)
    ensures forall i :: 0 <= i < |r| ==> !('A' <= r[i] <= 'Z')
  {
    seq(|s|, i requires 0 <= i < |s| => LowerChar(s[i]))
  }

  predicate OccursAt(s: string, sub: string, i: int) {
    0 <= i && i + |sub| <= |s| && s[i..i + |sub|] == sub
  }

  /** `sub` occurs in `s` at position `i` or later. */
  predicate OccursFrom(s: string, sub: string, i: nat)
    decreases |s| - i
  {
    i + |sub| <= |s| && (OccursAt(s, sub, i) || OccursFrom(s, sub, i + 1))
  }

  /** Python's `sub in s`. */
  predicate Contains(s: string, sub: string) {
    OccursFrom(s, sub, 0)
  }

  lemma {:induction false} OccursFromIff(s: string, sub: string, i: nat)
    ensures OccursFrom(s, sub, i) <==> exists p :: i <= p && OccursAt(s, sub, p)
    decreases |s| - i
  {
    if i + |sub| <= |s| {
      OccursFromIff(s, sub, i + 1);
      if !OccursFrom(s, sub, i) {
        forall p | i <= p
          ensures !OccursAt(s, sub, p)
        {
          if p == i {
          }
        }
      }
    }
  }

  /** `sub in s` holds exactly when `sub` occurs at some position of `s`. */
  lemma ContainsIff(s: string, sub: string)
    ensures Contains(s, sub) <==> exists p :: 0 <= p <= |s| && OccursAt(s, sub, p)
  {
    OccursFromIff(s, sub, 0);
  }

  const RevenueKeywords: seq<string> := ["total revenue", "sales", "total income", "revenue"]
  const NetProfitKeywords: seq<string> := ["net profit", "profit after tax", "profit after tax (pat)"]
  const OperatingKeywords: seq<string> := ["operating profit", "profit before tax", "ebit", "operating margin", "opm"]

  /** `any(k in ll for k in keywords)`, tried in order. */
  predicate MentionsAny(ll: string, keywords: seq<string>) {
    |keywords| > 0 && (Contains(ll, keywords[0]) || MentionsAny(ll, keywords[1..]))
  }

  /** `any(...)` holds exactly when some keyword of the list occurs in `ll`. */
  lemma {:induction false} MentionsAnyIff(ll: string, keywords: seq<string>)
    ensures MentionsAny(ll, keywords) <==> exists k :: k in keywords && Contains(ll, k)
  {
    if |keywords| > 0 {
      MentionsAnyIff(ll, keywords[1..]);
      assert keywords == [keywords[0]] + keywords[1..];
    }
  }

  /** A character of the class `\w`, ASCII only. */
  predicate IsWordChar(c: char) {
    'a' <= c <= 'z' || 'A' <= c <= 'Z' || IsDigit(c) || c == '_'
  }

  predicate EpsWordAt(ll: string, i: int) {
    OccursAt(ll, "eps", i)
    && (i == 0 || !IsWordChar(ll[i - 1]))
    && (i + 3 == |ll| || !IsWordChar(ll[i + 3]))
  }

  /** `\beps\b` matches at position `i` or later. */
  predicate EpsWordFrom(ll: string, i: nat)
    decreases |ll| - i
  {
    i + 3 <= |ll| && (EpsWordAt(ll, i) || EpsWordFrom(ll, i + 1))
  }

  /** `re.search(r"\beps\b", ll)` succeeds. */
  predicate MentionsEpsWord(ll: string) {
    EpsWordFrom(ll, 0)
  }

  lemma {:induction false} EpsWordFromIff(ll: string, i: nat)
    ensures EpsWordFrom(ll, i) <==> exists p :: i <= p && EpsWordAt(ll, p)
    decreases |ll| - i
  {
    if i + 3 <= |ll| {
      EpsWordFromIff(ll, i + 1);
      if !EpsWordFrom(ll, i) {
        forall p | i <= p
          ensures !EpsWordAt(ll, p)
        {
          if p == i {
          }
        }
      }
    }
  }

  /** The search succeeds exactly when `eps` stands as a whole word somewhere in `ll`. */
  lemma MentionsEpsWordIff(ll: string)
    ensures MentionsEpsWord(ll) <==> exists p :: 0 <= p <= |ll| && EpsWordAt(ll, p)
  {
    EpsWordFromIff(ll, 0);
  }

  /** The operating figure is read as a margin percentage. */
  predicate MarginHint(line: string, ll: string) {
    Contains(line, "%") || Contains(ll, "margin") || Contains(ll, "opm")
  }

  // ---------------------------------------------------------------- number selection

  /** The test `n and n > floor` (or just `n` when there is no floor). */
  predicate Picks(n: Option<real>, floor: Option<real>) {
    Truthy(n) && (floor.None? || n.value > floor.value)
  }

  /** The number a `for n in nums: if ...: ...; break` loop takes: the first one that `Picks` accepts. */
  function FirstPick(nums: seq<Option<real>>, floor: Option<real>): (r: Option<real>)
    ensures r.Some? <==> exists i :: 0 <= i < |nums| && Picks(nums[i], floor)
    ensures r.Some? ==> Picks(r, floor)
    ensures r.Some? ==> exists j :: 0 <= j < |nums| && nums[j] == r && forall i :: 0 <= i < j ==> !Picks(nums[i], floor)
  {
    if nums == [] then None
    else if Picks(nums[0], floor) then nums[0]
    else
      var r := FirstPick(nums[1..], floor);
      assert forall i :: 1 <= i < |nums| ==> nums[i] == nums[1..][i - 1];
      if r.Some? then
        var j :| 0 <= j < |nums[1..]| && nums[1..][j] == r && forall i :: 0 <= i < j ==> !Picks(nums[1..][i], floor);
        assert nums[j + 1] == r;
        r
      else r
  }

  /** An element accepted with nothing accepted before it is the first pick. */
  lemma FirstPickAt(nums: seq<Option<real>>, floor: Option<real>, j: nat)
    requires j < |nums| && Picks(nums[j], floor)
    requires forall i :: 0 <= i < j ==> !Picks(nums[i], floor)
    ensures FirstPick(nums, floor) == nums[j]
  {
  }

  const RevenueFloor: real := 1000.0
  const NetProfitFloor: real := 100.0

  // ---------------------------------------------------------------- one line

  /** The revenue branch: the first number above 1000 on a revenue line overwrites `revenue_cr`. */
  function RevenueStep(rec: MetricRecord, ll: string, nums: seq<Option<real>>): MetricRecord {
    var n := FirstPick(nums, Some(RevenueFloor));
    if MentionsAny(ll, RevenueKeywords) && n.Some? then rec.(revenueCr := n) else rec
  }

  /** The net-profit branch: the first number above 100 on a net-profit line overwrites `net_profit_cr`. */
  function NetProfitStep(rec: MetricRecord, ll: string, nums: seq<Option<real>>): MetricRecord {
    var n := FirstPick(nums, Some(NetProfitFloor));
    if MentionsAny(ll, NetProfitKeywords) && n.Some? then rec.(netProfitCr := n) else rec
  }

  /** The operating branch: the first nonzero number goes to the margin or to the amount. */
  function OperatingStep(rec: MetricRecord, line: string, ll: string, nums: seq<Option<real>>): MetricRecord {
    var n := FirstPick(nums, None);
    if MentionsAny(ll, OperatingKeywords) && n.Some? then
      if MarginHint(line, ll) then rec.(operatingMarginPct := n) else rec.(operatingProfitAmt := n)
    else rec
  }

  /** The EPS branch: the first nonzero number on a line with the word `eps`. */
  function EpsStep(rec: MetricRecord, ll: string, nums: seq<Option<real>>): MetricRecord {
    var n := FirstPick(nums, None);
    if MentionsEpsWord(ll) && n.Some? then rec.(eps := n) else rec
  }

  /** One pass of the loop body of `extract_from_pdf` over `line`. The two
      `continue`s test whether the FIELD is set, not whether this line set it. */
  function StepLine(rec: MetricRecord, line: string): MetricRecord {
    var ll := Lower(line);
    var nums := Tokenize(line);
    if |nums| == 0 then rec
    else
      var r1 := RevenueStep(rec, ll, nums);
      if MentionsAny(ll, RevenueKeywords) && Truthy(r1.revenueCr) then r1
      else
        var r2 := NetProfitStep(r1, ll, nums);
        if MentionsAny(ll, NetProfitKeywords) && Truthy(r2.netProfitCr) then r2
        else EpsStep(OperatingStep(r2, line, ll, nums), ll, nums)
  }

  /** The record after scanning `lines` in order, starting from `rec`. */
  function Extract(rec: MetricRecord, lines: seq<string>): MetricRecord {
    if lines == [] then rec
    else StepLine(Extract(rec, lines[..|lines| - 1]), lines[|lines| - 1])
  }

  // ---------------------------------------------------------------- the scan

  /** `extract_from_pdf` from the point where the text has been split into
      trimmed, non-empty lines. */
  method ExtractFromLines(path: string, lines: seq<string>) returns (out: MetricRecord)
    ensures out == Extract(NewRecord(path), lines)
    ensures Bounded(out)
  {
    out := NewRecord(path);
    var i := 0;
    while i < |lines|
      invariant 0 <= i <= |lines|
      invariant out == Extract(NewRecord(path), lines[..i])
    {
      assert lines[..i + 1][..i] == lines[..i];
      out := ScanLine(out, lines[i]);
      i := i + 1;
    }
    assert lines[..|lines|] == lines;
    ExtractKeepsBounds(NewRecord(path), lines);
  }

  /** One iteration of the loop of `extract_from_pdf`; each `return` stands for
      the source's `continue`. */
  method ScanLine(rec: MetricRecord, line: string) returns (out: MetricRecord)
    ensures out == StepLine(rec, line)
  {
    out := rec;
    var ll := Lower(line);
    var nums := Tokenize(line);
    if |nums| == 0 {
      return;
    }
    out := ScanRevenue(out, ll, nums);
    if MentionsAny(ll, RevenueKeywords) && Truthy(out.revenueCr) {
      return;
    }
    out := ScanNetProfit(out, ll, nums);
    if MentionsAny(ll, NetProfitKeywords) && Truthy(out.netProfitCr) {
      return;
    }
    out := ScanOperating(out, line, ll, nums);
    out := ScanEps(out, ll, nums);
  }

  /** The revenue / sales branch of the loop body. */
  method ScanRevenue(rec: MetricRecord, ll: string, nums: seq<Option<real>>) returns (out: MetricRecord)
    ensures out == RevenueStep(rec, ll, nums)
  {
    out := rec;
    if MentionsAny(ll, RevenueKeywords) {
      var k := 0;
      while k < |nums|
        invariant 0 <= k <= |nums| && out == rec
        invariant forall j :: 0 <= j < k ==> !Picks(nums[j], Some(RevenueFloor))
      {
        if Truthy(nums[k]) && nums[k].value > RevenueFloor {
          FirstPickAt(nums, Some(RevenueFloor), k);
          out := out.(revenueCr := nums[k]);
          break;
        }
        k := k + 1;
      }
    }
  }

  /** The net-profit branch of the loop body. */
  method ScanNetProfit(rec: MetricRecord, ll: string, nums: seq<Option<real>>) returns (out: MetricRecord)
    ensures out == NetProfitStep(rec, ll, nums)
  {
    out := rec;
    if MentionsAny(ll, NetProfitKeywords) {
      var k := 0;
      while k < |nums|
        invariant 0 <= k <= |nums| && out == rec
        invariant forall j :: 0 <= j < k ==> !Picks(nums[j], Some(NetProfitFloor))
      {
        if Truthy(nums[k]) && nums[k].value > NetProfitFloor {
          FirstPickAt(nums, Some(NetProfitFloor), k);
          out := out.(netProfitCr := nums[k]);
          break;
        }
        k := k + 1;
      }
    }
  }

  /** The operating profit / margin branch of the loop body. */
  method ScanOperating(rec: MetricRecord, line: string, ll: string, nums: seq<Option<real>>) returns (out: MetricRecord)
    ensures out == OperatingStep(rec, line, ll, nums)
  {
    out := rec;
    if MentionsAny(ll, OperatingKeywords) {
      var k := 0;
      while k < |nums|
        invariant 0 <= k <= |nums| && out == rec
        invariant forall j :: 0 <= j < k ==> !Picks(nums[j], None)
      {
        if Truthy(nums[k]) {
          FirstPickAt(nums, None, k);
          if Contains(line, "%") || Contains(ll, "margin") || Contains(ll, "opm") {
            out := out.(operatingMarginPct := nums[k]);
          } else {
            out := out.(operatingProfitAmt := nums[k]);
          }
          break;
        }
        k := k + 1;
      }
    }
  }

  /** The EPS branch of the loop body. */
  method ScanEps(rec: MetricRecord, ll: string, nums: seq<Option<real>>) returns (out: MetricRecord)
    ensures out == EpsStep(rec, ll, nums)
  {
    out := rec;
    if MentionsEpsWord(ll) {
      var k := 0;
      while k < |nums|
        invariant 0 <= k <= |nums| && out == rec
        invariant forall j :: 0 <= j < k ==> !Picks(nums[j], None)
      {
        if Truthy(nums[k]) {
          FirstPickAt(nums, None, k);
          out := out.(eps := nums[k]);
          break;
        }
        k := k + 1;
      }
    }
  }

  // ---------------------------------------------------------------- properties

  /** The thresholds the branches apply: revenue above 1000, net profit above
      100, the operating figures and EPS nonzero. */
  predicate Bounded(r: MetricRecord) {
    && (r.revenueCr.None? || r.revenueCr.value > RevenueFloor)
    && (r.netProfitCr.None? || r.netProfitCr.value > NetProfitFloor)
    && (r.operatingMarginPct.None? || r.operatingMarginPct.value != 0.0)
    && (r.operatingProfitAmt.None? || r.operatingProfitAmt.value != 0.0)
    && (r.eps.None? || r.eps.value != 0.0)
  }

  /** One pass keeps the thresholds. Each branch has its own lemma: with all
      four branches in one proof context the solver runs out of resource. */
  lemma StepKeepsBounds(rec: MetricRecord, line: string)
    requires Bounded(rec)
    ensures Bounded(StepLine(rec, line))
  {
    var ll := Lower(line);
    var nums := Tokenize(line);
    if |nums| > 0 {
      RevenueKeepsBounds(rec, ll, nums);
      var r1 := RevenueStep(rec, ll, nums);
      NetProfitKeepsBounds(r1, ll, nums);
      var r2 := NetProfitStep(r1, ll, nums);
      OperatingKeepsBounds(r2, line, ll, nums);
      EpsKeepsBounds(OperatingStep(r2, line, ll, nums), ll, nums);
    }
  }

  lemma RevenueKeepsBounds(rec: MetricRecord, ll: string, nums: seq<Option<real>>)
    requires Bounded(rec)
    ensures Bounded(RevenueStep(rec, ll, nums))
  {
  }

  lemma NetProfitKeepsBounds(rec: MetricRecord, ll: string, nums: seq<Option<real>>)
    requires Bounded(rec)
    ensures Bounded(NetProfitStep(rec, ll, nums))
  {
  }

  lemma OperatingKeepsBounds(rec: MetricRecord, line: string, ll: string, nums: seq<Option<real>>)
    requires Bounded(rec)
    ensures Bounded(OperatingStep(rec, line, ll, nums))
  {
  }

  lemma EpsKeepsBounds(rec: MetricRecord, ll: string, nums: seq<Option<real>>)
    requires Bounded(rec)
    ensures Bounded(EpsStep(rec, ll, nums))
  {
  }

  /** A line never changes the record's path or period. */
  lemma StepKeepsIdentity(rec: MetricRecord, line: string)
    ensures StepLine(rec, line).path == rec.path
    ensures StepLine(rec, line).period == rec.period
  {
    var ll := Lower(line);
    var nums := Tokenize(line);
    var r1 := RevenueStep(rec, ll, nums);
    var r2 := NetProfitStep(r1, ll, nums);
    var r3 := OperatingStep(r2, line, ll, nums);
    var out := StepLine(rec, line);
    assert out == rec || out == r1 || out == r2 || out == EpsStep(r3, ll, nums);
  }

  /** Every prefix of a scan that starts from a fresh record respects the thresholds. */
  lemma {:induction false} ExtractKeepsBounds(rec: MetricRecord, lines: seq<string>)
    requires Bounded(rec)
    ensures Bounded(Extract(rec, lines))
  {
    if lines != [] {
      ExtractKeepsBounds(rec, lines[..|lines| - 1]);
      StepKeepsBounds(Extract(rec, lines[..|lines| - 1]), lines[|lines| - 1]);
    }
  }

  /** Scanning `a` then `b` is scanning `a + b`. */
  lemma {:induction false} ExtractAppend(rec: MetricRecord, a: seq<string>, b: seq<string>)
    ensures Extract(rec, a + b) == Extract(Extract(rec, a), b)
  {
    if b == [] {
      assert a + b == a;
    } else {
      assert (a + b)[..|a + b| - 1] == a + b[..|b| - 1];
      ExtractAppend(rec, a, b[..|b| - 1]);
    }
  }

  /** A line with no digit and no comma changes nothing, keyword or not, so
      it can be dropped from anywhere in the report. */
  lemma NumberlessLineIgnored(rec: MetricRecord, a: seq<string>, line: string, b: seq<string>)
    requires forall p :: 0 <= p < |line| ==> !IsNumChar(line[p])
    ensures Extract(rec, a + [line] + b) == Extract(rec, a + b)
  {
    TokenizeSpec(line);
    ExtractAppend(rec, a + [line], b);
    ExtractAppend(rec, a, [line]);
    ExtractAppend(rec, a, b);
    assert [line][..0] == [];
  }

  // ---------------------------------------------------------------- letter case

  /** `s` and `t` differ at most in the case of ASCII letters. */
  predicate SameUpToCase(s: string, t: string) {
    |s| == |t| && forall i :: 0 <= i < |s| ==> LowerChar(s[i]) == LowerChar(t[i])
  }

  /** `line.lower()` forgets the case: lines equal up to case lower-case alike. */
  lemma LowerIgnoresCase(s: string, t: string)
    requires SameUpToCase(s, t)
    ensures Lower(s) == Lower(t)
  {
  }

  /** Lower-casing changes only the letters `A` to `Z`. */
  lemma LowerKeepsNonLetters(c: char, d: char)
    requires LowerChar(c) == LowerChar(d) && !('A' <= c <= 'Z') && !('a' <= c <= 'z')
    ensures c == d
  {
  }

  /** Lower-casing twice is lower-casing once. */
  lemma LowerIdempotent(s: string)
    ensures Lower(Lower(s)) == Lower(s)
  {
  }

  lemma {:induction false} PercentIgnoresCase(s: string, t: string, i: nat)
    requires SameUpToCase(s, t)
    ensures OccursFrom(s, "%", i) <==> OccursFrom(t, "%", i)
    decreases |s| - i
  {
    if i + 1 <= |s| {
      PercentIgnoresCase(s, t, i + 1);
      assert s[i..i + 1] == [s[i]] && t[i..i + 1] == [t[i]];
      if s[i] == '%' {
        LowerKeepsNonLetters(s[i], t[i]);
      } else if t[i] == '%' {
        LowerKeepsNonLetters(t[i], s[i]);
      }
    }
  }

  /** Digits, commas and dots are not letters, so they survive a change of case. */
  lemma CaseKeepsPatternChars(s: string, t: string)
    requires SameUpToCase(s, t)
    ensures AgreeOnPatternChars(s, t)
  {
    forall i | 0 <= i < |s| && (IsPatternChar(s[i]) || IsPatternChar(t[i]))
      ensures s[i] == t[i]
    {
      if IsPatternChar(s[i]) {
        LowerKeepsNonLetters(s[i], t[i]);
      } else {
        LowerKeepsNonLetters(t[i], s[i]);
      }
    }
  }

  /** The `%` test on the raw line is the only place a pass looks at the line
      without lower-casing it; `%` has no case. */
  lemma OperatingStepIgnoresCase(rec: MetricRecord, s: string, t: string, ll: string, nums: seq<Option<real>>)
    requires SameUpToCase(s, t)
    ensures OperatingStep(rec, s, ll, nums) == OperatingStep(rec, t, ll, nums)
  {
    PercentIgnoresCase(s, t, 0);
  }

  /** Keyword matching is case-insensitive: one pass over two lines that differ
      only in letter case does the same thing. */
  lemma StepIgnoresCase(rec: MetricRecord, s: string, t: string)
    requires SameUpToCase(s, t)
    ensures StepLine(rec, s) == StepLine(rec, t)
  {
    LowerIgnoresCase(s, t);
    CaseKeepsPatternChars(s, t);
    TokenizeSeesOnlyPatternChars(s, t);
    var ll, nums := Lower(s), Tokenize(s);
    var r2 := NetProfitStep(RevenueStep(rec, ll, nums), ll, nums);
    OperatingStepIgnoresCase(r2, s, t, ll, nums);
  }

  /** Reports whose lines differ only in letter case give the same record. */
  lemma {:induction false} ExtractIgnoresCase(rec: MetricRecord, a: seq<string>, b: seq<string>)
    requires |a| == |b| && forall k :: 0 <= k < |a| ==> SameUpToCase(a[k], b[k])
    ensures Extract(rec, a) == Extract(rec, b)
  {
    if a != [] {
      var n := |a| - 1;
      ExtractIgnoresCase(rec, a[..n], b[..n]);
      StepIgnoresCase(Extract(rec, a[..n]), a[n], b[n]);
    }
  }

  // ---------------------------------------------------------------- how far a pass gets

  /** The revenue branch ends the pass with `continue`: the line has a revenue
      keyword and `revenue_cr` is truthy after the branch, whether this line
      or an earlier one set it. */
  predicate RevenueContinues(rec: MetricRecord, line: string) {
    var ll := Lower(line);
    MentionsAny(ll, RevenueKeywords) && Truthy(RevenueStep(rec, ll, Tokenize(line)).revenueCr)
  }

  /** The net-profit branch ends the pass with `continue`. */
  predicate NetProfitContinues(rec: MetricRecord, line: string) {
    var ll := Lower(line);
    MentionsAny(ll, NetProfitKeywords) && Truthy(NetProfitStep(rec, ll, Tokenize(line)).netProfitCr)
  }

  /** The pass gets as far as the net-profit branch. */
  predicate ReachesNetProfit(rec: MetricRecord, line: string) {
    |Tokenize(line)| > 0 && !RevenueContinues(rec, line)
  }

  /** The pass gets as far as the operating and EPS branches. */
  predicate ReachesOperating(rec: MetricRecord, line: string) {
    ReachesNetProfit(rec, line) && !NetProfitContinues(rec, line)
  }

  /** When each `continue` fires: on a keyword line whose field is truthy,
      set there before or by this very line. A pass that goes on past the
      revenue branch has left the record as it was. */
  lemma ContinueConditions(rec: MetricRecord, line: string)
    ensures RevenueContinues(rec, line) <==>
      MentionsAny(Lower(line), RevenueKeywords) && (Truthy(rec.revenueCr) || FirstPick(Tokenize(line), Some(RevenueFloor)).Some?)
    ensures NetProfitContinues(rec, line) <==>
      MentionsAny(Lower(line), NetProfitKeywords) && (Truthy(rec.netProfitCr) || FirstPick(Tokenize(line), Some(NetProfitFloor)).Some?)
    ensures !RevenueContinues(rec, line) ==> RevenueStep(rec, Lower(line), Tokenize(line)) == rec
    ensures !NetProfitContinues(rec, line) ==> NetProfitStep(rec, Lower(line), Tokenize(line)) == rec
  {
  }

  // ---------------------------------------------------------------- what a line writes

  /** The five metric fields of a record. */
  datatype Metric = Revenue | NetProfit | OperatingMargin | OperatingAmount | Eps

  function Get(r: MetricRecord, m: Metric): Option<real> {
    match m
    case Revenue => r.revenueCr
    case NetProfit => r.netProfitCr
    case OperatingMargin => r.operatingMarginPct
    case OperatingAmount => r.operatingProfitAmt
    case Eps => r.eps
  }

  /** The revenue figure a line offers: the first number above 1000 on a line
      with a revenue keyword. The revenue branch comes first, so this does not
      depend on the record. */
  function RevenueOffered(line: string): (r: Option<real>)
    ensures r.Some? ==> r.value > RevenueFloor
  {
    if MentionsAny(Lower(line), RevenueKeywords) then FirstPick(Tokenize(line), Some(RevenueFloor)) else None
  }

  /** The figure the pass over `line`, starting from `rec`, writes into metric
      `m`, if any: the first qualifying number, when the pass reaches the
      metric's branch and the line carries the branch's keywords. */
  function Offered(m: Metric, rec: MetricRecord, line: string): (r: Option<real>)
    ensures r.Some? ==> Truthy(r)
    ensures m == Revenue && r.Some? ==> r.value > RevenueFloor
    ensures m == NetProfit && r.Some? ==> r.value > NetProfitFloor
  {
    var ll := Lower(line);
    var nums := Tokenize(line);
    match m
    case Revenue => RevenueOffered(line)
    case NetProfit =>
      if ReachesNetProfit(rec, line) && MentionsAny(ll, NetProfitKeywords) then FirstPick(nums, Some(NetProfitFloor)) else None
    case OperatingMargin =>
      if ReachesOperating(rec, line) && MentionsAny(ll, OperatingKeywords) && MarginHint(line, ll) then FirstPick(nums, None) else None
    case OperatingAmount =>
      if ReachesOperating(rec, line) && MentionsAny(ll, OperatingKeywords) && !MarginHint(line, ll) then FirstPick(nums, None) else None
    case Eps =>
      if ReachesOperating(rec, line) && MentionsEpsWord(ll) then FirstPick(nums, None) else None
  }

  /** One line overwrites a metric with the figure it offers, whatever was
      there before, and leaves the metric alone when it offers none. */
  lemma StepWrites(m: Metric, rec: MetricRecord, line: string)
    ensures Offered(m, rec, line).Some? ==> Get(StepLine(rec, line), m) == Offered(m, rec, line)
    ensures Offered(m, rec, line).None? ==> Get(StepLine(rec, line), m) == Get(rec, m)
  {
    match m
    case Revenue => StepWritesRevenue(rec, line);
    case NetProfit => StepWritesNetProfit(rec, line);
    case OperatingMargin => StepWritesMargin(rec, line);
    case OperatingAmount => StepWritesAmount(rec, line);
    case Eps => StepWritesEps(rec, line);
  }

  lemma StepWritesRevenue(rec: MetricRecord, line: string)
    ensures var o := Offered(Revenue, rec, line);
      StepLine(rec, line).revenueCr == if o.Some? then o else rec.revenueCr
  {
    ContinueConditions(rec, line);
  }

  lemma StepWritesNetProfit(rec: MetricRecord, line: string)
    ensures var o := Offered(NetProfit, rec, line);
      StepLine(rec, line).netProfitCr == if o.Some? then o else rec.netProfitCr
  {
    ContinueConditions(rec, line);
  }

  /** A pass that stops before the operating branch leaves the operating
      figures and EPS alone; one that reaches it has not changed the record yet. */
  lemma StepBeforeOperating(rec: MetricRecord, line: string)
    ensures !ReachesOperating(rec, line) ==>
      var out := StepLine(rec, line);
      && out.operatingMarginPct == rec.operatingMarginPct
      && out.operatingProfitAmt == rec.operatingProfitAmt
      && out.eps == rec.eps
    ensures ReachesOperating(rec, line) ==>
      var ll := Lower(line); var nums := Tokenize(line);
      StepLine(rec, line) == EpsStep(OperatingStep(rec, line, ll, nums), ll, nums)
  {
    var ll := Lower(line);
    var nums := Tokenize(line);
    ContinueConditions(rec, line);
    var r1 := RevenueStep(rec, ll, nums);
    var out := StepLine(rec, line);
    if !ReachesOperating(rec, line) {
      assert out == rec || out == r1 || out == NetProfitStep(r1, ll, nums);
    }
  }

  lemma StepWritesMargin(rec: MetricRecord, line: string)
    ensures var o := Offered(OperatingMargin, rec, line);
      StepLine(rec, line).operatingMarginPct == if o.Some? then o else rec.operatingMarginPct
  {
    StepBeforeOperating(rec, line);
  }

  lemma StepWritesAmount(rec: MetricRecord, line: string)
    ensures var o := Offered(OperatingAmount, rec, line);
      StepLine(rec, line).operatingProfitAmt == if o.Some? then o else rec.operatingProfitAmt
  {
    StepBeforeOperating(rec, line);
  }

  lemma StepWritesEps(rec: MetricRecord, line: string)
    ensures var o := Offered(Eps, rec, line);
      StepLine(rec, line).eps == if o.Some? then o else rec.eps
  {
    StepBeforeOperating(rec, line);
  }

  /** The last line of a scan writes its offer, if any, over the metric. */
  lemma ExtractLast(m: Metric, rec: MetricRecord, lines: seq<string>)
    requires lines != []
    ensures var before := Extract(rec, lines[..|lines| - 1]);
      var o := Offered(m, before, lines[|lines| - 1]);
      Get(Extract(rec, lines), m) == if o.Some? then o else Get(before, m)
  {
    StepWrites(m, Extract(rec, lines[..|lines| - 1]), lines[|lines| - 1]);
  }

  /** The last present entry of `os`, if any. */
  function LastSome(os: seq<Option<real>>): Option<real> {
    if os == [] then None
    else if os[|os| - 1].Some? then os[|os| - 1]
    else LastSome(os[..|os| - 1])
  }

  /** The last present entry is entry `j` when no later entry is present. */
  lemma {:induction false} LastSomeAt(os: seq<Option<real>>, j: nat)
    requires j < |os| && os[j].Some?
    requires forall k :: j < k < |os| ==> os[k].None?
    ensures LastSome(os) == os[j]
  {
    var n := |os| - 1;
    if j < n {
      LastSomeAt(os[..n], j);
    }
  }

  /** There is no last present entry exactly when no entry is present. */
  lemma {:induction false} LastSomeNone(os: seq<Option<real>>)
    ensures LastSome(os).None? <==> forall k :: 0 <= k < |os| ==> os[k].None?
  {
    if os != [] {
      var n := |os| - 1;
      LastSomeNone(os[..n]);
      assert forall k :: 0 <= k < n ==> os[..n][k] == os[k];
    }
  }

  /** The offers for `m` of the lines of a scan, each as the line is reached. */
  function Offers(m: Metric, rec: MetricRecord, lines: seq<string>): (os: seq<Option<real>>)
    ensures |os| == |lines|
  {
    seq(|lines|, k requires 0 <= k < |lines| => Offered(m, Extract(rec, lines[..k]), lines[k]))
  }

  lemma OffersPrefix(m: Metric, rec: MetricRecord, lines: seq<string>)
    requires lines != []
    ensures Offers(m, rec, lines)[..|lines| - 1] == Offers(m, rec, lines[..|lines| - 1])
  {
    var prefix := lines[..|lines| - 1];
    forall k | 0 <= k < |prefix|
      ensures Offers(m, rec, lines)[k] == Offers(m, rec, prefix)[k]
    {
      assert prefix[..k] == lines[..k];
    }
  }

  /** Last qualifying line wins: after the scan, a metric holds the last
      figure offered for it, and its starting value when no line offered one. */
  lemma {:induction false} LastWins(m: Metric, rec: MetricRecord, lines: seq<string>)
    ensures var o := LastSome(Offers(m, rec, lines));
      Get(Extract(rec, lines), m) == if o.Some? then o else Get(rec, m)
  {
    if lines != [] {
      LastWins(m, rec, lines[..|lines| - 1]);
      OffersPrefix(m, rec, lines);
      ExtractLast(m, rec, lines);
    }
  }

  /** For revenue the offer does not depend on the scan so far: the final
      revenue is the figure of the last line offering one above 1000. */
  lemma RevenueLastWins(rec: MetricRecord, lines: seq<string>, j: nat)
    requires j < |lines| && RevenueOffered(lines[j]).Some?
    requires forall k :: j < k < |lines| ==> RevenueOffered(lines[k]).None?
    ensures Extract(rec, lines).revenueCr == RevenueOffered(lines[j])
  {
    LastSomeAt(Offers(Revenue, rec, lines), j);
    LastWins(Revenue, rec, lines);
  }

  /** One line never offers both an operating margin and an operating amount. */
  lemma MarginOrAmount(rec: MetricRecord, line: string)
    ensures Offered(OperatingMargin, rec, line).None? || Offered(OperatingAmount, rec, line).None?
  {
  }

  // ---------------------------------------------------------------- the continues

  /** When the revenue branch continues (revenue truthy before the line, or
      set by it), the line can change only the revenue. */
  lemma RevenueLineShortCircuits(rec: MetricRecord, line: string)
    requires MentionsAny(Lower(line), RevenueKeywords)
    requires Truthy(rec.revenueCr) || RevenueOffered(line).Some?
    ensures StepLine(rec, line) == rec.(revenueCr := StepLine(rec, line).revenueCr)
  {
    ContinueConditions(rec, line);
  }

  /** Likewise for net profit, on any line the revenue branch lets through. */
  lemma NetProfitLineShortCircuits(rec: MetricRecord, line: string)
    requires !RevenueContinues(rec, line)
    requires MentionsAny(Lower(line), NetProfitKeywords)
    requires Truthy(rec.netProfitCr) || FirstPick(Tokenize(line), Some(NetProfitFloor)).Some?
    ensures StepLine(rec, line) == rec.(netProfitCr := StepLine(rec, line).netProfitCr)
  {
    ContinueConditions(rec, line);
  }

  /** On an operating line that gets past both `continue`s, whatever other
      keywords it carries, the first nonzero number goes to the margin when
      the line has `%`, `margin` or `opm` and to the amount otherwise; EPS
      takes the same number when the word `eps` is on the line, so one line
      may set both. */
  lemma OperatingRouting(rec: MetricRecord, line: string)
    requires !RevenueContinues(rec, line) && !NetProfitContinues(rec, line)
    requires MentionsAny(Lower(line), OperatingKeywords)
    requires FirstPick(Tokenize(line), None).Some?
    ensures var r := StepLine(rec, line); var n := FirstPick(Tokenize(line), None);
      && r.revenueCr == rec.revenueCr && r.netProfitCr == rec.netProfitCr
      && (if MarginHint(line, Lower(line))
          then r.operatingMarginPct == n && r.operatingProfitAmt == rec.operatingProfitAmt
          else r.operatingProfitAmt == n && r.operatingMarginPct == rec.operatingMarginPct)
      && r.eps == (if MentionsEpsWord(Lower(line)) then n else rec.eps)
  {
    ContinueConditions(rec, line);
  }
}
