/** Spoken-language identification (backend `LanguageIdentifier`): the table of supported
    language codes, the mapping of free-form classifier labels onto that table, the filtering
    and max-merging of model probabilities, and the choice of the most probable supported
    language. Neural inference is abstracted: the transcription, the proper-noun filter and
    the probability tables the models produce are inputs (`Observations`). */
module LanguageId {
  import opened Common

  /** Supported target languages (code -> display name). */
  const TargetLangs: map<string, string> := map[
    "as" := "Assamese", "bn" := "Bengali", "brx" := "Bodo", "doi" := "Dogri",
    "gu" := "Gujarati", "hi" := "Hindi", "kn" := "Kannada",
    "kas_Arab" := "Kashmiri (Arabic)", "kas_Deva" := "Kashmiri (Devanagari)",
    "gom" := "Konkani", "mai" := "Maithili", "ml" := "Malayalam", "mr" := "Marathi",
    "mni_Beng" := "Manipuri (Bengali)", "mni_Mtei" := "Manipuri (Meitei)",
    "npi" := "Nepali", "or" := "Odia", "pa" := "Punjabi", "sa" := "Sanskrit",
    "sat" := "Santali", "snd_Arab" := "Sindhi (Arabic)", "snd_Deva" := "Sindhi (Devanagari)",
    "ta" := "Tamil", "te" := "Telugu", "ur" := "Urdu",
    "en" := "English", "es" := "Spanish", "fr" := "French", "de" := "German",
    "it" := "Italian", "pt" := "Portuguese", "ru" := "Russian",
    "zh" := "Chinese (Simplified)", "ja" := "Japanese", "ko" := "Korean",
    "ar" := "Arabic", "fa" := "Persian", "tr" := "Turkish", "id" := "Indonesian"
  ]

  /** The keys of the table that carry an upper-case script suffix. */
  const MixedCaseKeys: set<string> :=
    {"kas_Arab", "kas_Deva", "mni_Beng", "mni_Mtei", "snd_Arab", "snd_Deva"}

  // ------------------------------------------------------------------ label mapping

  /** The first entry of `candidates` that is a supported code, if any. */
  function FirstSupported(candidates: seq<string>): (r: Option<string>)
    ensures r.None? <==> forall i :: 0 <= i < |candidates| ==> candidates[i] !in TargetLangs
    ensures r.Some? ==> exists i :: 0 <= i < |candidates| && candidates[i] == r.value &&
                          r.value in TargetLangs &&
                          forall j :: 0 <= j < i ==> candidates[j] !in TargetLangs
  {
    if candidates == [] then None
    else if candidates[0] in TargetLangs then Some(candidates[0])
    else
      var r := FirstSupported(candidates[1..]);
      assert r.Some? ==> exists i :: 0 < i < |candidates| && candidates[i] == r.value &&
                           forall j :: 0 <= j < i ==> candidates[j] !in TargetLangs by {
        if r.Some? {
          var i :| 0 <= i < |candidates[1..]| && candidates[1..][i] == r.value &&
                   forall j :: 0 <= j < i ==> candidates[1..][j] !in TargetLangs;
          assert forall j :: 0 <= j < i + 1 ==> candidates[j] !in TargetLangs by {
            forall j | 0 <= j < i + 1 ensures candidates[j] !in TargetLangs {
              if j > 0 { assert candidates[j] == candidates[1..][j - 1]; }
            }
          }
        }
      }
      r
  }

  /** Searching a concatenation searches the left part first. */
  lemma {:induction false} FirstSupportedAppend(xs: seq<string>, ys: seq<string>)
    ensures FirstSupported(xs + ys) == if FirstSupported(xs).Some? then FirstSupported(xs) else FirstSupported(ys)
  {
    if xs != [] {
      assert (xs + ys)[0] == xs[0];
      assert (xs + ys)[1..] == xs[1..] + ys;
      FirstSupportedAppend(xs[1..], ys);
      if xs[0] !in TargetLangs {
        assert FirstSupported(xs) == FirstSupported(xs[1..]);
        assert FirstSupported(xs + ys) == FirstSupported(xs[1..] + ys);
      }
    } else {
      assert xs + ys == ys;
    }
  }

  /** `replace('-', '_')` on one character: no `-` is left, and nothing else changes. */
  function DashToUnderscore(c: char): (r: char)
    ensures r != '-'
    ensures c != '-' ==> r == c
  {
    if c == '-' then '_' else c
  }

  /** Python `s[:2]`: the first two characters, or all of a shorter string. */
  function Prefix2(s: string): (r: string)
    ensures |r| == if |s| < 2 then |s| else 2
    ensures r <= s
  {
    if |s| <= 2 then s else s[..2]
  }

  /** The parts of a lower-cased label: `lab.replace('-', '_').split('_')`. */
  function LabelParts(lab: string): (parts: seq<string>)
    ensures |parts| >= 1
    ensures forall k :: 0 <= k < |parts| ==> HasNone(parts[k], {'-', '_'})
    ensures var dashed := MapChars(lab, DashToUnderscore);
            |parts| == |SeparatorsOf(dashed, {'_'})| + 1 && JoinWith(parts, SeparatorsOf(dashed, {'_'})) == dashed
  {
    var dashed := MapChars(lab, DashToUnderscore);
    SplitJoin(dashed, {'_'});
    SplitPartsHaveNoSeparator(dashed, {'_'});
    SplitPartsAvoid(dashed, {'_'}, {'-'});
    Split(dashed, {'_'})
  }

  /** `_label_to_target_code`: map a classifier label onto a supported code. */
  function LabelToTargetCode(classLabel: string): (r: Option<string>)
    ensures r.Some? ==> r.value in TargetLangs
  {
    var lab := Lower(classLabel);
    if lab in TargetLangs then Some(lab)
    else
      var hit := FirstSupported(LabelParts(lab));
      if hit.Some? then hit
      else if Prefix2(lab) in TargetLangs then Some(Prefix2(lab))
      else None
  }

  /** The candidates the mapping tries, in order: the whole lower-cased label, each part
      after replacing `-` by `_` and splitting on `_`, then the first two characters. */
  function Candidates(classLabel: string): (r: seq<string>)
    ensures |r| >= 3 && r[0] == Lower(classLabel) && r[|r| - 1] == Prefix2(Lower(classLabel))
    ensures forall i :: 0 <= i < |r| ==> IsLowerCase(r[i])
  {
    var lab := Lower(classLabel);
    LowerIsLowerCase(classLabel);
    LabelPartsLowerCase(lab);
    var r := [lab] + LabelParts(lab) + [Prefix2(lab)];
    assert forall i :: 0 < i < |r| - 1 ==> r[i] == LabelParts(lab)[i - 1];
    r
  }

  /** The parts of a lower-case label are lower-case. */
  lemma LabelPartsLowerCase(lab: string)
    requires IsLowerCase(lab)
    ensures forall i :: 0 <= i < |LabelParts(lab)| ==> IsLowerCase(LabelParts(lab)[i])
  {
    var dashed := MapChars(lab, DashToUnderscore);
    assert IsLowerCase(dashed);
    SplitPartsLowerCase(dashed, {'_'});
  }

  /** The mapping returns the first supported candidate, and nothing when none is. */
  lemma LabelToTargetCodeIsFirstCandidate(classLabel: string)
    ensures LabelToTargetCode(classLabel) == FirstSupported(Candidates(classLabel))
  {
    var lab := Lower(classLabel);
    FirstSupportedAppend([lab], LabelParts(lab) + [Prefix2(lab)]);
    FirstSupportedAppend(LabelParts(lab), [Prefix2(lab)]);
    assert [lab] + LabelParts(lab) + [Prefix2(lab)] == [lab] + (LabelParts(lab) + [Prefix2(lab)]);
  }

  /** Because the label is lower-cased first, every code produced is lower-case and
      non-empty; in particular the mixed-case keys of the table are never produced. */
  lemma LabelToTargetCodeLowerCase(classLabel: string)
    ensures var r := LabelToTargetCode(classLabel);
            r.Some? ==> IsLowerCase(r.value) && r.value != "" && r.value !in MixedCaseKeys
  {
    LabelToTargetCodeIsFirstCandidate(classLabel);
    EmptyNotSupported();
    MixedCaseKeysAreNotLowerCase();
  }

  /** The empty string is not a supported code. */
  lemma EmptyNotSupported()
    ensures "" !in TargetLangs
  {
  }

  /** Each mixed-case key has an upper-case letter after its underscore. */
  lemma MixedCaseKeysAreNotLowerCase()
    ensures forall code :: code in MixedCaseKeys ==> code in TargetLangs && !IsLowerCase(code)
  {
    assert "kas_Arab"[4] == 'A' && "kas_Deva"[4] == 'D' && "snd_Arab"[4] == 'A';
    assert "mni_Beng"[4] == 'B' && "mni_Mtei"[4] == 'M' && "snd_Deva"[4] == 'D';
  }

  // ------------------------------------------------------------------ dictionaries

  /** A Python dict from language code to probability: `table` holds the entries and
      `order` the keys in insertion order (which decides ties in `max`). */
  datatype Dict = Dict(order: seq<string>, table: map<string, real>)

  ghost predicate WellFormed(d: Dict) {
    Distinct(d.order) &&
    (forall k :: k in d.table <==> k in d.order)
  }

  ghost predicate OnlySupported(table: map<string, real>) {
    forall k :: k in table ==> k in TargetLangs
  }

  ghost predicate Distinct(s: seq<string>) {
    forall i, j :: 0 <= i < j < |s| ==> s[i] != s[j]
  }

  /** The keys of `order` that are in `keep`, in their order. */
  function FilterKeys(order: seq<string>, keep: set<string>): (r: seq<string>)
    ensures forall k :: k in r <==> k in order && k in keep
    ensures Distinct(order) ==> Distinct(r)
  {
    if order == [] then []
    else
      var rest := FilterKeys(order[1..], keep);
      assert Distinct(order) ==> Distinct(order[1..]);
      if order[0] in keep then [order[0]] + rest else rest
  }

  /** Filtering keeps the kept keys in their relative order: filtering a concatenation
      concatenates the filtered parts. */
  lemma {:induction false} FilterKeysAppend(a: seq<string>, b: seq<string>, keep: set<string>)
    ensures FilterKeys(a + b, keep) == FilterKeys(a, keep) + FilterKeys(b, keep)
  {
    if a == [] {
      assert a + b == b;
    } else {
      assert (a + b)[1..] == a[1..] + b;
      FilterKeysAppend(a[1..], b, keep);
    }
  }

  /** Filtering an order is filtering its first `i` keys, then the rest. */
  lemma FilterSplitAt(order: seq<string>, keep: set<string>, i: nat)
    requires i <= |order|
    ensures FilterKeys(order, keep) == FilterKeys(order[..i], keep) + FilterKeys(order[i..], keep)
  {
    FilterKeysAppend(order[..i], order[i..], keep);
    assert order[..i] + order[i..] == order;
  }

  /** A kept key that comes earlier in `order` also comes earlier among the kept keys. */
  lemma {:induction false} FilterKeepsEarlierFirst(order: seq<string>, keep: set<string>, i: nat, j: nat, m: nat)
    requires Distinct(order) && j < i < |order| && order[j] in keep
    requires m < |FilterKeys(order, keep)| && FilterKeys(order, keep)[m] == order[i]
    ensures exists p :: 0 <= p < m && FilterKeys(order, keep)[p] == order[j]
  {
    var prefix := order[..i];
    var before := FilterKeys(prefix, keep);
    FilterSplitAt(order, keep, i);
    assert order[i] !in prefix by {
      forall t | 0 <= t < i ensures prefix[t] != order[i] {
        assert prefix[t] == order[t];
      }
    }
    assert m >= |before|;
    assert order[j] in prefix;
    var p :| 0 <= p < |before| && before[p] == order[j];
    assert FilterKeys(order, keep)[p] == order[j];
  }

  /** The supported keys of a key order, in that order (`if lang in TARGET_LANGS`). */
  function FilterOrder(order: seq<string>): (r: seq<string>)
    ensures forall k :: k in r <==> k in order && k in TargetLangs
    ensures Distinct(order) ==> Distinct(r)
  {
    FilterKeys(order, TargetLangs.Keys)
  }

  /** `{lang: prob for lang, prob in probs.items() if lang in TARGET_LANGS}` */
  function FilterSupported(d: Dict): (r: Dict)
    requires WellFormed(d)
    ensures WellFormed(r) && OnlySupported(r.table)
    ensures r.order == FilterOrder(d.order)
    ensures forall k :: k in r.table <==> k in d.table && k in TargetLangs
    ensures forall k :: k in r.table ==> r.table[k] == d.table[k]
  {
    Dict(FilterOrder(d.order), map k | k in d.table && k in TargetLangs :: d.table[k])
  }

  // ------------------------------------------------------------------ arg-max

  function RealMax(a: real, b: real): real {
    if a >= b then a else b
  }

  /** `max(keys, key=table.get)`: scans left to right and replaces the best key only by
      a strictly larger one, so the first maximal key wins. */
  function MaxKey(order: seq<string>, table: map<string, real>): (best: string)
    requires |order| > 0 && forall i :: 0 <= i < |order| ==> order[i] in table
    ensures best in order
  {
    if |order| == 1 then order[0]
    else
      var b := MaxKey(order[..|order| - 1], table);
      var k := order[|order| - 1];
      if table[k] > table[b] then k else b
  }

  /** The key `MaxKey` picks has the largest value, and every key before it a smaller one. */
  lemma {:induction false} MaxKeyIsFirstMaximum(order: seq<string>, table: map<string, real>)
    requires |order| > 0 && forall i :: 0 <= i < |order| ==> order[i] in table
    ensures var best := MaxKey(order, table);
            (forall j :: 0 <= j < |order| ==> table[order[j]] <= table[best]) &&
            exists i :: 0 <= i < |order| && order[i] == best &&
                        forall j :: 0 <= j < i ==> table[order[j]] < table[best]
  {
    if |order| > 1 {
      var init := order[..|order| - 1];
      MaxKeyIsFirstMaximum(init, table);
      var b := MaxKey(init, table);
      var k := order[|order| - 1];
      var i :| 0 <= i < |init| && init[i] == b && forall j :: 0 <= j < i ==> table[init[j]] < table[b];
      if table[k] > table[b] {
        assert forall j :: 0 <= j < |order| - 1 ==> table[order[j]] < table[k] by {
          forall j | 0 <= j < |order| - 1 ensures table[order[j]] < table[k] {
            assert order[j] == init[j];
          }
        }
        assert order[|order| - 1] == k;
      } else {
        assert forall j :: 0 <= j < |order| - 1 ==> order[j] == init[j];
        assert order[i] == b;
      }
    } else {
      assert order[0] == MaxKey(order, table);
    }
  }

  /** What `detect` returns: the chosen language (or None) and the supported probabilities. */
  datatype Detection = Detection(lang: Option<string>, probs: map<string, real>)

  /** A detection result is sound when its table holds supported codes only, it names a
      language exactly when the table is non-empty, and that language has the largest
      probability in the table. */
  ghost predicate SoundDetection(r: Detection) {
    OnlySupported(r.probs) &&
    (r.lang.None? <==> r.probs == map[]) &&
    (r.lang.Some? ==> r.lang.value in r.probs &&
                      forall k :: k in r.probs ==> r.probs[k] <= r.probs[r.lang.value])
  }

  /** The end of every detection branch: `(None, {})` for an empty filtered table, else
      the arg-max together with the table. */
  function Select(d: Dict): (r: Detection)
    requires WellFormed(d) && OnlySupported(d.table)
    ensures SoundDetection(r)
    ensures r.lang.None? <==> d.table == map[]
    ensures r.lang.Some? ==> r.probs == d.table
    ensures r.lang.Some? ==> exists m :: 0 <= m < |d.order| && d.order[m] == r.lang.value &&
                                         forall j :: 0 <= j < m ==> d.table[d.order[j]] < d.table[d.order[m]]
  {
    if d.order == [] then
      assert d.table.Keys == {};
      Detection(None, map[])
    else
      MaxKeyIsFirstMaximum(d.order, d.table);
      var best := MaxKey(d.order, d.table);
      assert forall k :: k in d.table ==> d.table[k] <= d.table[best] by {
        forall k | k in d.table ensures d.table[k] <= d.table[best] {
          var j :| 0 <= j < |d.order| && d.order[j] == k;
        }
      }
      assert d.order[0] in d.table;
      Detection(Some(best), d.table)
  }

  /** End to end for the Whisper and AI4Bharat branches: a language is detected exactly
      when some key of the model's table is supported, and it is the first supported key,
      in the table's insertion order, whose probability is the largest among the
      supported keys. */
  lemma {:induction false} DetectedIsFirstMaximum(d: Dict)
    requires WellFormed(d)
    ensures var r := Select(FilterSupported(d));
            (r.lang.None? <==> forall k :: k in d.table ==> k !in TargetLangs) &&
            (r.lang.Some? ==>
               exists i :: 0 <= i < |d.order| && d.order[i] == r.lang.value && d.order[i] in TargetLangs &&
                 (forall j :: 0 <= j < |d.order| && d.order[j] in TargetLangs ==>
                                d.table[d.order[j]] <= d.table[d.order[i]]) &&
                 (forall j :: 0 <= j < i && d.order[j] in TargetLangs ==>
                                d.table[d.order[j]] < d.table[d.order[i]]))
  {
    DetectedIffSupported(d);
    DetectedIsSupportedMaximum(d);
  }

  /** A language is detected exactly when some key of the model's table is supported. */
  lemma DetectedIffSupported(d: Dict)
    requires WellFormed(d)
    ensures Select(FilterSupported(d)).lang.None? <==> forall k :: k in d.table ==> k !in TargetLangs
  {
    var f := FilterSupported(d);
    if Select(f).lang.None? {
      forall k | k in d.table ensures k !in TargetLangs {
        assert k !in f.table;
      }
    }
  }

  /** A detected language is the first supported key of largest probability. */
  lemma DetectedIsSupportedMaximum(d: Dict)
    requires WellFormed(d)
    ensures var r := Select(FilterSupported(d));
            r.lang.Some? ==>
              exists i :: 0 <= i < |d.order| && d.order[i] == r.lang.value && d.order[i] in TargetLangs &&
                (forall j :: 0 <= j < |d.order| && d.order[j] in TargetLangs ==>
                               d.table[d.order[j]] <= d.table[d.order[i]]) &&
                (forall j :: 0 <= j < i && d.order[j] in TargetLangs ==>
                               d.table[d.order[j]] < d.table[d.order[i]])
  {
    var f := FilterSupported(d);
    var r := Select(f);
    if r.lang.Some? {
      var best := r.lang.value;
      var m :| 0 <= m < |f.order| && f.order[m] == best &&
               forall j :: 0 <= j < m ==> f.table[f.order[j]] < f.table[f.order[m]];
      SupportedFirstMaximum(d, f, best, m);
    }
  }

  /** The Some case of `DetectedIsFirstMaximum`, for a dict `f` filtered from `d`: the
      `m`-th key of `f`, larger than every key before it and no smaller than any key of
      `f`, sits at an index of `d.order` before which every supported key is strictly
      smaller, and no supported key of `d` is larger. */
  lemma SupportedFirstMaximum(d: Dict, f: Dict, best: string, m: nat)
    requires WellFormed(d) && WellFormed(f)
    requires f.order == FilterOrder(d.order)
    requires forall k :: k in f.table <==> k in d.table && k in TargetLangs
    requires forall k :: k in f.table ==> f.table[k] == d.table[k]
    requires m < |f.order| && f.order[m] == best
    requires forall j :: 0 <= j < m ==> f.table[f.order[j]] < f.table[best]
    requires forall k :: k in f.table ==> f.table[k] <= f.table[best]
    ensures exists i :: 0 <= i < |d.order| && d.order[i] == best && d.order[i] in TargetLangs &&
              (forall j :: 0 <= j < |d.order| && d.order[j] in TargetLangs ==>
                             d.table[d.order[j]] <= d.table[d.order[i]]) &&
              (forall j :: 0 <= j < i && d.order[j] in TargetLangs ==>
                             d.table[d.order[j]] < d.table[d.order[i]])
  {
    assert best in f.table;
    var i :| 0 <= i < |d.order| && d.order[i] == best;
    forall j | 0 <= j < i && d.order[j] in TargetLangs
      ensures d.table[d.order[j]] < d.table[best]
    {
      FilterKeepsEarlierFirst(d.order, TargetLangs.Keys, i, j, m);
      var p :| 0 <= p < m && f.order[p] == d.order[j];
      assert f.order[p] in f.table;
    }
    forall j | 0 <= j < |d.order| && d.order[j] in TargetLangs
      ensures d.table[d.order[j]] <= d.table[best]
    {
      assert d.order[j] in f.table;
    }
  }

  // ------------------------------------------------------------------ MMS label merging

  /** `model.config.id2label`: string keys ("3") and integer keys (3), both given here by
      the index they name. */
  datatype Id2Label = Id2Label(byStr: map<int, string>, byInt: map<int, string>)

  /** `id2label.get(str(idx), id2label.get(idx, None))`: the string key is tried first. */
  function LabelAt(labels: Id2Label, idx: int): (r: Option<string>)
    ensures r.None? <==> idx !in labels.byStr && idx !in labels.byInt
    ensures idx in labels.byStr ==> r == Some(labels.byStr[idx])
    ensures idx !in labels.byStr && idx in labels.byInt ==> r == Some(labels.byInt[idx])
  {
    if idx in labels.byStr then Some(labels.byStr[idx])
    else if idx in labels.byInt then Some(labels.byInt[idx])
    else None
  }

  /** The supported code the label at `idx` maps to, if there is a label and a code. */
  function CodeAt(labels: Id2Label, idx: int): (r: Option<string>)
    ensures r.Some? ==> r.value in TargetLangs
    ensures LabelAt(labels, idx).None? ==> r.None?
  {
    match LabelAt(labels, idx)
    case None => None
    case Some(classLabel) => LabelToTargetCode(classLabel)
  }

  /** The codes of the first `n` indices. */
  function IndexCodes(labels: Id2Label, n: nat): (codes: seq<Option<string>>)
    ensures |codes| == n
    ensures forall i :: 0 <= i < n ==> codes[i] == CodeAt(labels, i)
    ensures AllSupported(codes)
  {
    seq(n, i => CodeAt(labels, i))
  }

  ghost predicate AllSupported(codes: seq<Option<string>>) {
    forall i :: 0 <= i < |codes| && codes[i].Some? ==> codes[i].value in TargetLangs
  }

  /** `filtered_probs[code] = max(filtered_probs.get(code, 0.0), p)`: a new key is appended
      to the insertion order, an existing one keeps its place. */
  function Accumulate(d: Dict, code: string, p: real): (r: Dict)
    ensures code in r.table && r.table[code] == RealMax(if code in d.table then d.table[code] else 0.0, p)
    ensures forall k :: k != code ==> (k in r.table <==> k in d.table)
    ensures forall k :: k != code && k in d.table ==> r.table[k] == d.table[k]
    ensures code in d.table ==> r.order == d.order
    ensures code !in d.table ==> r.order == d.order + [code]
  {
    if code in d.table then Dict(d.order, d.table[code := RealMax(d.table[code], p)])
    else Dict(d.order + [code], d.table[code := RealMax(0.0, p)])
  }

  /** The filtered table after the first `n` probabilities, given the code (if any) of
      each index: indices without a code are skipped. */
  function Merge(probs: seq<real>, codes: seq<Option<string>>, n: nat): (r: Dict)
    requires n <= |probs| && n <= |codes|
    ensures WellFormed(r)
    ensures AllSupported(codes) ==> OnlySupported(r.table)
  {
    if n == 0 then Dict([], map[])
    else
      var d := Merge(probs, codes, n - 1);
      match codes[n - 1]
      case None => d
      case Some(code) =>
        assert code !in d.table ==> code !in d.order;
        assert forall i :: 0 <= i < |d.order| ==> (d.order + [code])[i] == d.order[i];
        Accumulate(d, code, probs[n - 1])
  }

  /** The merge loop of the MMS branch, updating the table in place index by index. */
  method FilterMmsProbs(probs: seq<real>, labels: Id2Label) returns (filtered: Dict)
    ensures filtered == Merge(probs, IndexCodes(labels, |probs|), |probs|)
  {
    ghost var codes := IndexCodes(labels, |probs|);
    var order: seq<string> := [];
    var table: map<string, real> := map[];
    for idx := 0 to |probs|
      invariant Dict(order, table) == Merge(probs, codes, idx)
    {
      var classLabel := LabelAt(labels, idx);
      if classLabel.None? {
        continue;
      }
      var targetCode := LabelToTargetCode(classLabel.value);
      if targetCode.Some? {
        var code := targetCode.value;
        var previous := if code in table then table[code] else 0.0;
        if code !in table {
          order := order + [code];
        }
        table := table[code := RealMax(previous, probs[idx])];
      }
    }
    filtered := Dict(order, table);
  }

  /** Some index below `n` carries `code`. */
  ghost predicate Hit(codes: seq<Option<string>>, n: nat, code: string)
    requires n <= |codes|
  {
    exists i :: 0 <= i < n && codes[i] == Some(code)
  }

  /** The value the merge holds for one code after `n` indices, or None while no index has
      carried it: the table followed one key at a time. */
  function CodeValue(probs: seq<real>, codes: seq<Option<string>>, n: nat, code: string): Option<real>
    requires n <= |probs| && n <= |codes|
  {
    if n == 0 then None
    else
      var v := CodeValue(probs, codes, n - 1, code);
      if codes[n - 1] == Some(code) then Some(RealMax(if v.Some? then v.value else 0.0, probs[n - 1]))
      else v
  }

  /** The merged table, read at one code, is `CodeValue`. */
  lemma {:induction false} MergeAtCode(probs: seq<real>, codes: seq<Option<string>>, n: nat, code: string)
    requires n <= |probs| && n <= |codes|
    ensures var t := Merge(probs, codes, n).table;
            (code in t <==> CodeValue(probs, codes, n, code).Some?) &&
            (code in t ==> t[code] == CodeValue(probs, codes, n, code).value)
  {
    if n > 0 {
      MergeAtCode(probs, codes, n - 1, code);
    }
  }

  /** A code has a value exactly when some index carries it; the value bounds the
      probability of every such index, is never negative (the merge starts from 0.0), and is
      either 0.0 or one of those probabilities. */
  lemma {:induction false} CodeValueIsMax(probs: seq<real>, codes: seq<Option<string>>, n: nat, code: string)
    requires n <= |probs| && n <= |codes|
    ensures var v := CodeValue(probs, codes, n, code);
            (v.Some? <==> Hit(codes, n, code)) &&
            (v.Some? ==>
               v.value >= 0.0 &&
               (forall i :: 0 <= i < n && codes[i] == Some(code) ==> probs[i] <= v.value) &&
               (v.value == 0.0 || exists i :: 0 <= i < n && codes[i] == Some(code) && probs[i] == v.value))
  {
    if n > 0 {
      CodeValueIsMax(probs, codes, n - 1, code);
      var v0 := CodeValue(probs, codes, n - 1, code);
      var v := CodeValue(probs, codes, n, code);
      if codes[n - 1] == Some(code) {
        assert Hit(codes, n, code);
        if v0.Some? && v.value != probs[n - 1] && v.value != 0.0 {
          assert v.value == v0.value;
          var j :| 0 <= j < n - 1 && codes[j] == Some(code) && probs[j] == v0.value;
        }
      } else {
        assert v == v0;
        assert Hit(codes, n, code) ==> Hit(codes, n - 1, code) by {
          if Hit(codes, n, code) {
            var i :| 0 <= i < n && codes[i] == Some(code);
            assert i < n - 1;
          }
        }
        if v.Some? && v.value != 0.0 {
          var j :| 0 <= j < n - 1 && codes[j] == Some(code) && probs[j] == v.value;
        }
      }
    }
  }

  /** A code is in the merged table exactly when some index carries it (indices without a
      label, or whose label maps to nothing, contribute nothing); its merged value bounds the
      probability of every index carrying it, is never negative, and is either 0.0 or one of
      those probabilities. */
  lemma MergeIsMax(probs: seq<real>, codes: seq<Option<string>>, n: nat, code: string)
    requires n <= |probs| && n <= |codes|
    ensures var t := Merge(probs, codes, n).table;
            (code in t <==> Hit(codes, n, code)) &&
            (code in t ==>
               t[code] >= 0.0 &&
               (forall i :: 0 <= i < n && codes[i] == Some(code) ==> probs[i] <= t[code]) &&
               (t[code] == 0.0 || exists i :: 0 <= i < n && codes[i] == Some(code) && probs[i] == t[code]))
  {
    MergeAtCode(probs, codes, n, code);
    CodeValueIsMax(probs, codes, n, code);
  }

  /** When the probabilities are non-negative (a softmax output), each merged value is
      exactly the largest probability among the indices carrying its code. */
  lemma MergeIsMaxOfNonNegative(probs: seq<real>, codes: seq<Option<string>>, n: nat, code: string)
    requires n <= |probs| && n <= |codes|
    requires forall i :: 0 <= i < n ==> probs[i] >= 0.0
    requires code in Merge(probs, codes, n).table
    ensures exists i :: 0 <= i < n && codes[i] == Some(code) && probs[i] == Merge(probs, codes, n).table[code]
  {
    MergeIsMax(probs, codes, n, code);
    var i :| 0 <= i < n && codes[i] == Some(code);
  }

  // ------------------------------------------------------------------ the identifier

  datatype Backend = WhisperModel(size: string) | MmsModel(modelId: string)

  datatype LidError = NotImplemented(message: string) | ValueError(message: string)

  /** The attributes `__init__` sets: the device, the `lid_model` name and the loaded model. */
  datatype Identifier = Identifier(device: string, lidModel: string, backend: Backend)

  /** `__init__`: dispatch on the model name; `cudaAvailable` stands for
      `torch.cuda.is_available()`. The names accepted are "whisper", "mms" and
      "facebook_mms"; "ai4bharat" raises NotImplementedError and every other name ValueError.
      Python's defaults `model_size="small"` and `lid_model="whisper"` are not modelled:
      callers pass both explicitly. */
  function Init(modelSize: string, device: Option<string>, lidModel: string, cudaAvailable: bool)
    : (r: Result<Identifier, LidError>)
    ensures r.Success? <==> lidModel in {"whisper", "mms", "facebook_mms"}
    ensures lidModel == "ai4bharat" ==> r.Failure? && r.error.NotImplemented?
    ensures lidModel !in {"whisper", "mms", "facebook_mms", "ai4bharat"} ==>
              r == Failure(ValueError("Unsupported LID model"))
    ensures r.Success? ==> r.value.lidModel == lidModel
    ensures r.Success? ==> r.value.device == OptOrElse(device, if cudaAvailable then "cuda" else "cpu")
    ensures r.Success? ==> (r.value.backend.WhisperModel? <==> lidModel == "whisper")
  {
    var dev := OptOrElse(device, if cudaAvailable then "cuda" else "cpu");
    if lidModel == "whisper" then Success(Identifier(dev, lidModel, WhisperModel(modelSize)))
    else if lidModel == "ai4bharat" then
      Failure(NotImplemented("AI4Bharat Indic Conformer does not support LID. Use Whisper for LID."))
    else if lidModel == "facebook_mms" || lidModel == "mms" then
      Success(Identifier(dev, lidModel, MmsModel("facebook/mms-lid-1024")))
    else Failure(ValueError("Unsupported LID model"))
  }

  /** What the models and libraries produce for one audio file. */
  datatype Observations = Observations(
    transcript: string,                  // Whisper `transcribe(...)["text"]`
    properNounFilter: string -> string,  // `filter_proper_nouns` (spaCy tagging)
    whisperProbs: Dict,                  // Whisper `detect_language` probabilities
    ai4bharatProbs: Dict,                // AI4Bharat `detect_language` result
    mmsProbs: seq<real>,                 // softmax over the MMS classifier logits
    id2label: Id2Label)                  // MMS `config.id2label`

  /** Text kept for detection after proper-noun filtering: the raw text when the filter
      leaves only whitespace. (The value is computed but not used by detection.) */
  function TextForDetection(rawText: string, filteredText: string): (r: string)
    ensures IsBlank(filteredText, PythonWhitespace) ==> r == rawText
    ensures !IsBlank(filteredText, PythonWhitespace) ==> r == filteredText
  {
    if Strip(filteredText, PythonWhitespace) == [] then rawText else filteredText
  }

  /** `detect`: dispatch on the model name. Every successful result is sound; a blank
      Whisper transcription gives `(None, {})` before any detection; the proper-noun
      filter does not influence the result; an unknown model name raises ValueError. */
  method Detect(id: Identifier, obs: Observations) returns (r: Result<Detection, LidError>)
    requires WellFormed(obs.whisperProbs) && WellFormed(obs.ai4bharatProbs)
    ensures r.Failure? <==> id.lidModel !in {"whisper", "ai4bharat", "facebook_mms", "mms"}
    ensures r.Failure? ==> r.error == ValueError("Unsupported LID model")
    ensures r.Success? ==> SoundDetection(r.value)
    ensures id.lidModel == "whisper" && IsBlank(obs.transcript, PythonWhitespace) ==> r == Success(Detection(None, map[]))
    ensures id.lidModel == "whisper" && !IsBlank(obs.transcript, PythonWhitespace) ==>
              r == Success(Select(FilterSupported(obs.whisperProbs)))
    ensures id.lidModel == "ai4bharat" ==> r == Success(Select(FilterSupported(obs.ai4bharatProbs)))
    ensures id.lidModel in {"facebook_mms", "mms"} ==>
              r == Success(Select(Merge(obs.mmsProbs, IndexCodes(obs.id2label, |obs.mmsProbs|), |obs.mmsProbs|)))
  {
    if id.lidModel == "whisper" {
      var rawText := Strip(obs.transcript, PythonWhitespace);
      if rawText == [] {
        return Success(Detection(None, map[]));
      }
      var filteredText := obs.properNounFilter(rawText);
      var textForDetection := TextForDetection(rawText, filteredText);
      r := Success(Select(FilterSupported(obs.whisperProbs)));
    } else if id.lidModel == "ai4bharat" {
      r := Success(Select(FilterSupported(obs.ai4bharatProbs)));
    } else if id.lidModel in {"facebook_mms", "mms"} {
      var filtered := FilterMmsProbs(obs.mmsProbs, obs.id2label);
      r := Success(Select(filtered));
    } else {
      r := Failure(ValueError("Unsupported LID model"));
    }
  }
}
