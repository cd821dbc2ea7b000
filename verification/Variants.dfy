/**
  The adversarial variant generator of the reliability gate
  (scripts/xiaoyou_reliability_gate.py): a scenario's input wrapped in a prefix, a separator, a suffix and a
  timing phrase, chosen by the mixed-radix digits of an index.
 */
module Variants {
  import Decimal
  import Text

  /** The number of variants before the digits repeat: 6 * 4 * 5 * 5. */
  const PERIOD := 600

  function Prefix(k: nat): string {
    match k
    case 0 => ""
    case 1 => "小优，"
    case 2 => "请"
    case 3 => "现在"
    case 4 => "我想确认一下，"
    case _ => "麻烦你"
  }

  function Separator(k: nat): string {
    match k
    case 0 => ""
    case 1 => " "
    case 2 => "  "
    case _ => "\n"
  }

  function Suffix(k: nat): string {
    match k
    case 0 => ""
    case 1 => "。"
    case 2 => "？"
    case 3 => "，说重点。"
    case _ => "，不要猜。"
  }

  function Timing(k: nat): string {
    match k
    case 0 => ""
    case 1 => " 当前轮次"
    case 2 => " 接着刚才"
    case 3 => " 今天"
    case _ => " 现在就处理"
  }

  /** What comes before the text. */
  function Head(index: nat): string {
    Prefix(index % 6) + Separator((index / 6) % 4)
  }

  /** What comes after it. */
  function Tail(index: nat): string {
    Suffix((index / 24) % 5) + Timing((index / 120) % 5)
  }

  function Variant(text: string, index: nat): string {
    Head(index) + Text.Strip(text) + Tail(index)
  }

  // ----- Each part is recognised by a character -----

  /** Characters that only tails use: one for each suffix and timing phrase. */
  predicate TailMark(c: char) {
    || c == '。' || c == '？' || c == '说' || c == '不'
    || c == '当' || c == '接' || c == '今' || c == '就'
  }

  /** Characters that only prefixes use: the first one of each. */
  predicate PrefixMark(c: char) {
    c == '小' || c == '请' || c == '现' || c == '我' || c == '麻'
  }

  lemma HeadsHaveNoTailMark(index: nat, c: char)
    requires TailMark(c)
    ensures c !in Head(index)
  {
    assert c !in Prefix(index % 6);
    assert c !in Separator((index / 6) % 4);
  }

  lemma SuffixMarks(k: nat)
    requires k < 5
    ensures '？' in Suffix(k) <==> k == 2
    ensures '说' in Suffix(k) <==> k == 3
    ensures '不' in Suffix(k) <==> k == 4
    ensures '。' in Suffix(k) <==> k in [1, 3, 4]
    ensures '当' !in Suffix(k) && '接' !in Suffix(k) && '今' !in Suffix(k) && '就' !in Suffix(k)
  {
    if k == 3 {
      assert Suffix(k)[1] == '说' && Suffix(k)[4] == '。';
    } else if k == 4 {
      assert Suffix(k)[1] == '不' && Suffix(k)[4] == '。';
    } else if k == 1 || k == 2 {
      assert Suffix(k)[0] in ['。', '？'];
    }
  }

  lemma TimingMarks(k: nat)
    requires k < 5
    ensures '当' in Timing(k) <==> k == 1
    ensures '接' in Timing(k) <==> k == 2
    ensures '今' in Timing(k) <==> k == 3
    ensures '就' in Timing(k) <==> k == 4
    ensures '。' !in Timing(k) && '？' !in Timing(k) && '说' !in Timing(k) && '不' !in Timing(k)
  {
    if k == 1 || k == 2 || k == 3 {
      assert Timing(k)[1] in ['当', '接', '今'];
    } else if k == 4 {
      assert Timing(k)[3] == '就';
    }
  }

  lemma PrefixMarks(k: nat)
    requires k < 6
    ensures '小' in Prefix(k) <==> k == 1
    ensures '请' in Prefix(k) <==> k == 2
    ensures '现' in Prefix(k) <==> k == 3
    ensures '我' in Prefix(k) <==> k == 4
    ensures '麻' in Prefix(k) <==> k == 5
  {
    if k != 0 {
      assert Prefix(k)[0] in ['小', '请', '现', '我', '麻'];
    }
  }

  // ----- Equal variants have equal digits -----

  /** A character outside both heads occurs equally often in both tails. */
  lemma SameTailChars(h: string, h': string, text: string, t: string, t': string, c: char)
    requires h + text + t == h' + text + t'
    requires c !in h && c !in h'
    ensures c in t <==> c in t'
  {
    assert multiset(h + text + t) == multiset(h) + multiset(text) + multiset(t);
    assert multiset(h' + text + t') == multiset(h') + multiset(text) + multiset(t');
    assert multiset(h)[c] == 0 && multiset(h')[c] == 0;
    assert multiset(h + text + t)[c] == multiset(text)[c] + multiset(t)[c];
    assert multiset(h' + text + t')[c] == multiset(text)[c] + multiset(t')[c];
    assert c in t <==> c in multiset(t);
    assert c in t' <==> c in multiset(t');
  }

  lemma TailDigits(text: string, i: nat, j: nat)
    requires Variant(text, i) == Variant(text, j)
    ensures (i / 24) % 5 == (j / 24) % 5 && (i / 120) % 5 == (j / 120) % 5
  {
    forall c | TailMark(c) ensures c in Tail(i) <==> c in Tail(j) {
      HeadsHaveNoTailMark(i, c);
      HeadsHaveNoTailMark(j, c);
      SameTailChars(Head(i), Head(j), Text.Strip(text), Tail(i), Tail(j), c);
    }
    TailsByMark((i / 24) % 5, (i / 120) % 5, (j / 24) % 5, (j / 120) % 5);
  }

  lemma TailsByMark(s: nat, t: nat, s': nat, t': nat)
    requires s < 5 && t < 5 && s' < 5 && t' < 5
    requires forall c | TailMark(c) :: c in Suffix(s) + Timing(t) <==> c in Suffix(s') + Timing(t')
    ensures s == s' && t == t'
  {
    SuffixMarks(s);
    SuffixMarks(s');
    TimingMarks(t);
    TimingMarks(t');
    assert TailMark('？') && TailMark('说') && TailMark('不') && TailMark('。');
    assert TailMark('当') && TailMark('接') && TailMark('今') && TailMark('就');
  }

  lemma SeparatorsHaveNoMark(q: nat, c: char)
    requires PrefixMark(c)
    ensures c !in Separator(q)
  {
  }

  lemma HeadsByMark(p: nat, q: nat, p': nat, q': nat)
    requires p < 6 && q < 4 && p' < 6 && q' < 4
    requires Prefix(p) + Separator(q) == Prefix(p') + Separator(q')
    ensures p == p' && q == q'
  {
    PrefixMarks(p);
    PrefixMarks(p');
    var l, r := Prefix(p) + Separator(q), Prefix(p') + Separator(q');
    forall c | PrefixMark(c) ensures c in Prefix(p) <==> c in Prefix(p') {
      SeparatorsHaveNoMark(q, c);
      SeparatorsHaveNoMark(q', c);
      assert c in l <==> c in Prefix(p);
      assert c in r <==> c in Prefix(p');
    }
    assert PrefixMark('小') && PrefixMark('请') && PrefixMark('现') && PrefixMark('我') && PrefixMark('麻');
    assert Separator(q) == l[|Prefix(p)|..] == r[|Prefix(p')|..] == Separator(q');
  }

  lemma Digits(i: nat)
    requires i < PERIOD
    ensures i == i % 6 + 6 * ((i / 6) % 4) + 24 * ((i / 24) % 5) + 120 * ((i / 120) % 5)
  {
    assert (i / 6) / 4 == i / 24;
    assert (i / 24) / 5 == i / 120;
  }

  /** Four digits in radices 6, 4, 5 and 5 determine a number below 600. */
  lemma DigitsDetermine(i: nat, j: nat)
    requires i < PERIOD && j < PERIOD
    requires i % 6 == j % 6 && (i / 6) % 4 == (j / 6) % 4
    requires (i / 24) % 5 == (j / 24) % 5 && (i / 120) % 5 == (j / 120) % 5
    ensures i == j
  {
    Digits(i);
    Digits(j);
  }

  lemma SameHead(h: string, h': string, text: string, t: string)
    requires h + text + t == h' + text + t
    ensures h == h'
  {
    assert |h| == |h'|;
    assert h == (h + text + t)[..|h|] == (h' + text + t)[..|h'|] == h';
  }

  /** The first 600 variants of any text are pairwise different. */
  lemma VariantsDistinct(text: string, i: nat, j: nat)
    requires i < PERIOD && j < PERIOD
    requires Variant(text, i) == Variant(text, j)
    ensures i == j
  {
    TailDigits(text, i, j);
    SameHead(Head(i), Head(j), Text.Strip(text), Tail(i));
    HeadsByMark(i % 6, (i / 6) % 4, j % 6, (j / 6) % 4);
    DigitsDetermine(i, j);
  }

  /** From there on they repeat. */
  lemma VariantsRepeat(text: string, i: nat)
    ensures Variant(text, i + PERIOD) == Variant(text, i)
  {
    DigitsRepeat(i);
  }

  lemma DigitsRepeat(i: nat)
    ensures (i + PERIOD) % 6 == i % 6
    ensures ((i + PERIOD) / 6) % 4 == (i / 6) % 4
    ensures ((i + PERIOD) / 24) % 5 == (i / 24) % 5
    ensures ((i + PERIOD) / 120) % 5 == (i / 120) % 5
  {
    assert (i + PERIOD) / 6 == i / 6 + 100;
    assert (i + PERIOD) / 24 == i / 24 + 25;
    assert (i + PERIOD) / 120 == i / 120 + 5;
  }

  /** Two texts share a variant of the same index exactly when they agree after stripping. */
  lemma SameIndexSameText(a: string, b: string, index: nat)
    ensures Variant(a, index) == Variant(b, index) <==> Text.Strip(a) == Text.Strip(b)
  {
    var h, s, t := Head(index), Text.Strip(a), Text.Strip(b);
    var l, r := h + s + Tail(index), h + t + Tail(index);
    if l == r {
      assert |s| == |t|;
      assert s == l[|h|..|h| + |s|] == r[|h|..|h| + |t|] == t;
    }
  }

  // ----- The gate's collision checks -----

  ghost function VariantSet(text: string, n: nat): set<string> {
    set i: nat | i < n :: Variant(text, i)
  }

  lemma {:induction false} VariantSetGrows(text: string, n: nat)
    ensures VariantSet(text, n + 1) == VariantSet(text, n) + {Variant(text, n)}
    ensures Variant(text, n) in VariantSet(text, n) <==> n >= PERIOD
  {
    forall v ensures v in VariantSet(text, n + 1) <==> v in VariantSet(text, n) + {Variant(text, n)} {
      if v in VariantSet(text, n) {
        var i: nat :| i < n && v == Variant(text, i);
        assert i < n + 1;
      }
    }
    if n >= PERIOD {
      VariantsRepeat(text, n - PERIOD);
    } else if Variant(text, n) in VariantSet(text, n) {
      var i: nat :| i < n && Variant(text, n) == Variant(text, i);
      VariantsDistinct(text, n, i);
    }
  }

  /** After `n` variants the set holds them, at most 600. */
  ghost predicate Gathered(text: string, n: nat, variants: set<string>) {
    variants == VariantSet(text, n) && |variants| == if n <= PERIOD then n else PERIOD
  }

  lemma GatheredStep(text: string, n: nat, variants: set<string>)
    requires Gathered(text, n, variants)
    ensures Gathered(text, n + 1, variants + {Variant(text, n)})
  {
    VariantSetGrows(text, n);
    AddOne(variants, Variant(text, n), VariantSet(text, n + 1));
  }

  lemma AddOne<T>(s: set<T>, x: T, t: set<T>)
    requires t == s + {x}
    ensures |t| == if x in s then |s| else |s| + 1
  {
    assert x in s ==> t == s;
  }

  /** The text-collision check of one scenario: it fires exactly when more than 600 variants are asked for. */
  method TextCollision(text: string, n: int) returns (collision: bool)
    ensures collision <==> n > 600
  {
    var variants: set<string> := {};
    var i := 0;
    while i < n
      invariant 0 <= i && (i <= n || i == 0)
      invariant Gathered(text, i, variants)
    {
      GatheredStep(text, i, variants);
      variants := variants + {Variant(text, i)};
      i := i + 1;
    }
    collision := |variants| < n;
  }

  /** A row of the scenario list: a mapping with an id and an input, or something else. */
  datatype Scenario = Row(id: string, input: string) | Malformed

  /** The ids of the mappings, in order. */
  function Ids(scenarios: seq<Scenario>): seq<string> {
    if scenarios == [] then []
    else
      var last := scenarios[|scenarios| - 1];
      Ids(scenarios[..|scenarios| - 1]) + if last.Row? then [last.id] else []
  }

  /** All text-collision errors of a gate run: every scenario or none. */
  method TextCollisions(scenarios: seq<Scenario>, n: int) returns (errors: seq<string>)
    ensures errors == if n > 600 then Ids(scenarios) else []
  {
    errors := [];
    for k := 0 to |scenarios|
      invariant errors == if n > PERIOD then Ids(scenarios[..k]) else []
    {
      assert scenarios[..k + 1][..k] == scenarios[..k];
      if scenarios[k].Row? {
        var collision := TextCollision(scenarios[k].input, n);
        if collision {
          errors := errors + [scenarios[k].id];
        }
      }
    }
    assert scenarios[..|scenarios|] == scenarios;
  }

  /** What the variant digest is taken of: the scenario id, the index and the variant, on lines of their own. */
  function HashInput(id: string, index: nat, text: string): string {
    id + ['\n'] + (Decimal.Print(index) + ['\n'] + Variant(text, index))
  }

  /** An id with the stripped input: all that the digests of a scenario depend on. */
  type Key = (string, string)

  function KeyOf(row: Scenario): Key
    requires row.Row?
  {
    (row.id, Text.Strip(row.input))
  }

  /** The id of `b` takes in the line end and the index of `a`, and the texts make up for it. */
  ghost predicate Absorbs(a: Scenario, i: nat, b: Scenario, j: nat)
    requires a.Row? && b.Row?
  {
    exists u :: b.id == a.id + ['\n'] + (Decimal.Print(i) + u)
             && ['\n'] + Variant(a.input, i) == u + (['\n'] + (Decimal.Print(j) + ['\n'] + Variant(b.input, j)))
  }

  /** A shorter id, followed by its index line, starts a longer one. */
  lemma LongerId(x: string, p: string, s: string, y: string, q: string, t: string) returns (u: string)
    requires x + ['\n'] + (p + ['\n'] + s) == y + ['\n'] + (q + ['\n'] + t)
    requires |x| < |y| && '\n' !in p
    ensures y == x + ['\n'] + (p + u) && ['\n'] + s == u + (['\n'] + (q + ['\n'] + t))
  {
    var l, r := x + ['\n'] + (p + ['\n'] + s), y + ['\n'] + (q + ['\n'] + t);
    assert forall k :: 0 <= k < |p| ==> l[|x| + 1 + k] == p[k];
    assert r[|y|] == '\n';
    var n := |x| + 1 + |p|;
    assert n <= |y|;
    u := y[n..];
    assert y == r[..|y|] == l[..|y|];
    assert l[..n] == x + ['\n'] + p;
    assert y == y[..n] + u && y[..n] == l[..n];
    assert x + ['\n'] + (p + u) == (x + ['\n'] + p) + u;
    assert ['\n'] + s == l[n..] == r[n..] == u + (['\n'] + (q + ['\n'] + t));
  }

  /**
    The digested texts of two variants are the same exactly if id, stripped input and index are, or one id takes in
    the index line of the other.
   */
  lemma HashInputExactly(a: Scenario, i: nat, b: Scenario, j: nat)
    requires a.Row? && b.Row?
    ensures HashInput(a.id, i, a.input) == HashInput(b.id, j, b.input) <==>
            (KeyOf(a) == KeyOf(b) && i == j) || Absorbs(a, i, b, j) || Absorbs(b, j, a, i)
  {
    Decimal.RoundTrip(i);
    Decimal.RoundTrip(j);
    SameIndexSameText(a.input, b.input, i);
    if HashInput(a.id, i, a.input) == HashInput(b.id, j, b.input) {
      SameDigestCases(a, i, b, j);
    }
    if Absorbs(a, i, b, j) {
      AbsorbedDigest(a, i, b, j);
    }
    if Absorbs(b, j, a, i) {
      AbsorbedDigest(b, j, a, i);
    }
  }

  lemma SameDigestCases(a: Scenario, i: nat, b: Scenario, j: nat)
    requires a.Row? && b.Row? && HashInput(a.id, i, a.input) == HashInput(b.id, j, b.input)
    ensures (KeyOf(a) == KeyOf(b) && i == j) || Absorbs(a, i, b, j) || Absorbs(b, j, a, i)
  {
    var p, q := Decimal.Print(i), Decimal.Print(j);
    var s, t := Variant(a.input, i), Variant(b.input, j);
    Decimal.RoundTrip(i);
    Decimal.RoundTrip(j);
    if |a.id| < |b.id| {
      var u := LongerId(a.id, p, s, b.id, q, t);
    } else if |b.id| < |a.id| {
      var u := LongerId(b.id, q, t, a.id, p, s);
    } else {
      SameLengthHead(a.id, p + ['\n'] + s, b.id, q + ['\n'] + t);
      Text.SplitAtFirst(p, s, q, t, '\n');
      Decimal.PrintInjective(i, j);
      SameIndexSameText(a.input, b.input, i);
    }
  }

  lemma SameLengthHead(x: string, s: string, y: string, t: string)
    requires |x| == |y| && x + ['\n'] + s == y + ['\n'] + t
    ensures x == y && s == t
  {
    var l, r := x + ['\n'] + s, y + ['\n'] + t;
    assert x == l[..|x|] && y == r[..|y|] && s == l[|x| + 1..] && t == r[|y| + 1..];
  }

  lemma AbsorbedDigest(a: Scenario, i: nat, b: Scenario, j: nat)
    requires a.Row? && b.Row? && Absorbs(a, i, b, j)
    ensures HashInput(a.id, i, a.input) == HashInput(b.id, j, b.input)
  {
    var p, rest := Decimal.Print(i), Decimal.Print(j) + ['\n'] + Variant(b.input, j);
    var u :| b.id == a.id + ['\n'] + (p + u) && ['\n'] + Variant(a.input, i) == u + (['\n'] + rest);
    Regrouped(a.id, p, u, rest, Variant(a.input, i));
  }

  lemma Regrouped(x: string, p: string, u: string, rest: string, s: string)
    requires ['\n'] + s == u + (['\n'] + rest)
    ensures x + ['\n'] + (p + ['\n'] + s) == (x + ['\n'] + (p + u)) + ['\n'] + rest
  {
    var h := x + ['\n'] + p;
    assert x + ['\n'] + (p + ['\n'] + s) == h + (['\n'] + s);
    assert (x + ['\n'] + (p + u)) + ['\n'] + rest == h + (u + (['\n'] + rest));
  }

  /** Ids of one line take nothing in: then different scenarios or indices are digested from different texts. */
  lemma HashInputInjective(a: Scenario, i: nat, b: Scenario, j: nat)
    requires a.Row? && b.Row? && (a.id == b.id || ('\n' !in a.id && '\n' !in b.id))
    ensures HashInput(a.id, i, a.input) == HashInput(b.id, j, b.input) <==> KeyOf(a) == KeyOf(b) && i == j
  {
    HashInputExactly(a, i, b, j);
    NothingAbsorbed(a, i, b, j);
    NothingAbsorbed(b, j, a, i);
  }

  lemma NothingAbsorbed(a: Scenario, i: nat, b: Scenario, j: nat)
    requires a.Row? && b.Row? && (a.id == b.id || '\n' !in b.id)
    ensures !Absorbs(a, i, b, j)
  {
    forall u ensures b.id != a.id + ['\n'] + (Decimal.Print(i) + u) {
      var longer := a.id + ['\n'] + (Decimal.Print(i) + u);
      assert longer[|a.id|] == '\n' && |longer| > |a.id|;
    }
  }

  ghost predicate LineIds(scenarios: seq<Scenario>) {
    forall k :: 0 <= k < |scenarios| && scenarios[k].Row? ==> '\n' !in scenarios[k].id
  }

  /** Every row is a mapping and no two agree on id and stripped input. */
  ghost predicate AllDifferent(scenarios: seq<Scenario>) {
    && (forall k :: 0 <= k < |scenarios| ==> scenarios[k].Row?)
    && (forall j, k :: 0 <= j < k < |scenarios| ==> KeyOf(scenarios[j]) != KeyOf(scenarios[k]))
  }

  /** Every row is a mapping and no two have a digested text in common. */
  ghost predicate NoneShared(scenarios: seq<Scenario>, n: nat) {
    && (forall k :: 0 <= k < |scenarios| ==> scenarios[k].Row?)
    && (forall j, k :: 0 <= j < k < |scenarios| ==> RowHashes(scenarios[j], n) !! RowHashes(scenarios[k], n))
  }

  /** For ids of one line this is the same. */
  lemma NoneSharedIsAllDifferent(scenarios: seq<Scenario>, n: nat)
    requires LineIds(scenarios) && n > 0
    ensures NoneShared(scenarios, n) <==> AllDifferent(scenarios)
  {
    if forall k :: 0 <= k < |scenarios| ==> scenarios[k].Row? {
      forall j, k | 0 <= j < k < |scenarios|
        ensures RowHashes(scenarios[j], n) !! RowHashes(scenarios[k], n) <==> KeyOf(scenarios[j]) != KeyOf(scenarios[k])
      {
        RowHashesMeet(scenarios[j], scenarios[k], n);
      }
    }
  }

  /** The digest inputs of one scenario, up to an index. */
  ghost function RowHashes(row: Scenario, n: nat): (hashes: set<string>)
    requires row.Row?
  {
    set i: nat | i < n :: HashInput(row.id, i, row.input)
  }

  lemma {:induction false} RowHashesCount(row: Scenario, n: nat)
    requires row.Row?
    ensures |RowHashes(row, n)| == n
  {
    if n > 0 {
      RowHashesGrow(row, n - 1);
      RowHashesCount(row, n - 1);
      NextHashIsNew(row, n - 1);
      AddOne(RowHashes(row, n - 1), HashInput(row.id, n - 1, row.input), RowHashes(row, n));
    }
  }

  lemma NextHashIsNew(row: Scenario, n: nat)
    requires row.Row?
    ensures HashInput(row.id, n, row.input) !in RowHashes(row, n)
  {
    forall i: nat | i < n ensures HashInput(row.id, n, row.input) != HashInput(row.id, i, row.input) {
      HashInputInjective(row, n, row, i);
    }
  }

  lemma RowHashesGrow(row: Scenario, n: nat)
    requires row.Row?
    ensures RowHashes(row, n + 1) == RowHashes(row, n) + {HashInput(row.id, n, row.input)}
  {
    forall h | h in RowHashes(row, n) ensures h in RowHashes(row, n + 1) {
      var i: nat :| i < n && h == HashInput(row.id, i, row.input);
      assert i < n + 1;
    }
  }

  /** Two rows with ids of one line have a digested text in common exactly if they have the same key. */
  lemma RowHashesMeet(a: Scenario, b: Scenario, n: nat)
    requires a.Row? && '\n' !in a.id && b.Row? && '\n' !in b.id && n > 0
    ensures RowHashes(a, n) !! RowHashes(b, n) <==> KeyOf(a) != KeyOf(b)
  {
    if KeyOf(a) == KeyOf(b) {
      HashInputInjective(a, 0, b, 0);
      assert HashInput(a.id, 0, a.input) in RowHashes(a, n) && HashInput(b.id, 0, b.input) in RowHashes(b, n);
    } else if exists h :: h in RowHashes(a, n) && h in RowHashes(b, n) {
      var h :| h in RowHashes(a, n) && h in RowHashes(b, n);
      var i: nat :| i < n && h == HashInput(a.id, i, a.input);
      var j: nat :| j < n && h == HashInput(b.id, j, b.input);
      HashInputInjective(a, i, b, j);
    }
  }

  /** The digest inputs of all scenarios. */
  ghost function AllHashes(scenarios: seq<Scenario>, n: nat): set<string> {
    if scenarios == [] then {}
    else
      var last := scenarios[|scenarios| - 1];
      AllHashes(scenarios[..|scenarios| - 1], n) + if last.Row? then RowHashes(last, n) else {}
  }

  /** A row shares a digested text with one of the others. */
  ghost predicate Shares(scenarios: seq<Scenario>, row: Scenario, n: nat)
    requires row.Row?
  {
    exists k :: 0 <= k < |scenarios| && scenarios[k].Row? && !(RowHashes(scenarios[k], n) !! RowHashes(row, n))
  }

  lemma SharesLast(scenarios: seq<Scenario>, last: Scenario, row: Scenario, n: nat)
    requires row.Row?
    ensures Shares(scenarios + [last], row, n) <==>
      Shares(scenarios, row, n) || (last.Row? && !(RowHashes(last, n) !! RowHashes(row, n)))
  {
    var all := scenarios + [last];
    if Shares(scenarios, row, n) {
      var k :| 0 <= k < |scenarios| && scenarios[k].Row? && !(RowHashes(scenarios[k], n) !! RowHashes(row, n));
      assert all[k] == scenarios[k];
    }
    assert all[|scenarios|] == last;
  }

  lemma NoneSharedLast(scenarios: seq<Scenario>, last: Scenario, n: nat)
    ensures NoneShared(scenarios + [last], n) <==>
      NoneShared(scenarios, n) && last.Row? && !Shares(scenarios, last, n)
  {
    var all := scenarios + [last];
    assert all[|scenarios|] == last;
    assert forall k :: 0 <= k < |scenarios| ==> all[k] == scenarios[k];
  }

  /** A row contributes only new digest inputs unless it shares one with an earlier row. */
  lemma {:induction false} HashesBefore(scenarios: seq<Scenario>, row: Scenario, n: nat)
    requires row.Row?
    ensures RowHashes(row, n) !! AllHashes(scenarios, n) <==> !Shares(scenarios, row, n)
  {
    if scenarios != [] {
      var front, last := scenarios[..|scenarios| - 1], scenarios[|scenarios| - 1];
      HashesBefore(front, row, n);
      SharesLast(front, last, row, n);
      assert scenarios == front + [last];
    }
  }

  /** A row adds all its `n` digests if it shares none, and fewer otherwise. */
  lemma HashCountStep(front: seq<Scenario>, last: Scenario, n: nat)
    ensures |AllHashes(front + [last], n)| <= |AllHashes(front, n)| + n
    ensures n > 0 ==> (|AllHashes(front + [last], n)| == |AllHashes(front, n)| + n <==> last.Row? && !Shares(front, last, n))
  {
    var all := front + [last];
    assert all[..|all| - 1] == front && all[|all| - 1] == last;
    if last.Row? {
      HashesBefore(front, last, n);
      RowHashesCount(last, n);
      UnionCount(AllHashes(front, n), RowHashes(last, n));
    }
  }

  lemma UnionCount<T>(a: set<T>, b: set<T>)
    ensures |a + b| <= |a| + |b|
    ensures a !! b <==> |a + b| == |a| + |b|
  {
    assert a + b == a + (b - a) && |a + (b - a)| == |a| + |b - a|;
    assert b == (b - a) + (a * b) && |b| == |b - a| + |a * b|;
    assert a !! b <==> a * b == {};
  }

  /** The digests fall short of rows times variants exactly when a row is malformed or shares one. */
  lemma {:induction false} HashCount(scenarios: seq<Scenario>, n: nat)
    ensures |AllHashes(scenarios, n)| <= |scenarios| * n
    ensures n > 0 ==> (|AllHashes(scenarios, n)| == |scenarios| * n <==> NoneShared(scenarios, n))
  {
    if scenarios != [] {
      var front, last := scenarios[..|scenarios| - 1], scenarios[|scenarios| - 1];
      assert scenarios == front + [last];
      HashCount(front, n);
      HashCountStep(front, last, n);
      NoneSharedLast(front, last, n);
      Times(|front|, n);
    }
  }

  lemma Times(k: nat, n: nat)
    ensures (k + 1) * n == k * n + n
  {
  }

  /** The digests of one scenario. */
  method Digests(row: Scenario, n: int) returns (hashes: set<string>)
    requires row.Row?
    ensures hashes == RowHashes(row, if n < 0 then 0 else n)
  {
    hashes := {};
    var i := 0;
    while i < n
      invariant 0 <= i && (i <= n || i == 0)
      invariant hashes == RowHashes(row, i)
    {
      RowHashesGrow(row, i);
      hashes := hashes + {HashInput(row.id, i, row.input)};
      i := i + 1;
    }
  }

  /**
    The digest-collision check fires exactly for a negative count or a malformed or shared row. The index is part of
    what is digested, so repetition of a text is never noticed: with ids of one line, rows share a digest only if they
    have the same id and stripped input.
   */
  method HashCollision(scenarios: seq<Scenario>, n: int) returns (collision: bool)
    ensures collision <==> scenarios != [] && (n < 0 || (n > 0 && !NoneShared(scenarios, n)))
    ensures LineIds(scenarios) ==>
      (collision <==> scenarios != [] && (n < 0 || (n > 0 && !AllDifferent(scenarios))))
  {
    var hashes: set<string> := {};
    ghost var count: nat := if n < 0 then 0 else n;
    for k := 0 to |scenarios|
      invariant hashes == AllHashes(scenarios[..k], count)
    {
      assert scenarios[..k + 1][..k] == scenarios[..k];
      if scenarios[k].Row? {
        var digests := Digests(scenarios[k], n);
        hashes := hashes + digests;
      }
    }
    assert scenarios[..|scenarios|] == scenarios;
    HashCount(scenarios, count);
    if LineIds(scenarios) && n > 0 {
      NoneSharedIsAllDifferent(scenarios, n);
    }
    collision := |hashes| != |scenarios| * n;
  }
}
