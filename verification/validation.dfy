/** The validation-result accumulator, the decision structure of
    `ColumnSchema.validate_value`, and the Brazilian CPF and CNPJ check-digit
    validators of src/core/validation.py. */
module Validation {
  import opened Wrappers
  import opened Text
  import opened Seqs

  datatype Severity = Info | Warning | Error | Critical

  datatype Rule = Required | TypeCheck | RangeCheck | FormatCheck | UniqueCheck | ReferenceCheck | Custom

  /** `ValidationIssue`: its rule, severity, column and row. */
  datatype Issue = Issue(rule: Rule, severity: Severity, column: Option<string>, row: Option<int>)

  /** `ValidationResult`. */
  datatype ValidationResult = ValidationResult(
    isValid: bool,
    issues: seq<Issue>,
    warningsCount: nat,
    errorsCount: nat,
    criticalCount: nat)

  /** `ValidationResult(is_valid=...)` with no issues yet. */
  function NewResult(isValid: bool): ValidationResult {
    ValidationResult(isValid, [], 0, 0, 0)
  }

  /** The severities that make a result invalid. */
  predicate Fails(s: Severity) {
    s == Error || s == Critical
  }

  /** `add_issue`: appends the issue and bumps the counter of its severity
      alone (INFO has none); ERROR and CRITICAL clear `is_valid`. */
  function AddIssue(r: ValidationResult, issue: Issue): (r': ValidationResult)
    ensures r'.issues == r.issues + [issue]
    ensures r'.warningsCount == r.warningsCount + (if issue.severity == Warning then 1 else 0)
    ensures r'.errorsCount == r.errorsCount + (if issue.severity == Error then 1 else 0)
    ensures r'.criticalCount == r.criticalCount + (if issue.severity == Critical then 1 else 0)
    ensures r'.isValid == (r.isValid && !Fails(issue.severity))
  {
    var appended := r.(issues := r.issues + [issue]);
    match issue.severity
    case Info => appended
    case Warning => appended.(warningsCount := r.warningsCount + 1)
    case Error => appended.(errorsCount := r.errorsCount + 1, isValid := false)
    case Critical => appended.(criticalCount := r.criticalCount + 1, isValid := false)
  }

  /** `add_issue` for each issue of `l`, in order. */
  function AddIssues(r: ValidationResult, l: seq<Issue>): (r': ValidationResult)
    ensures r'.issues == r.issues + l
    ensures r'.isValid <==> r.isValid && forall k :: 0 <= k < |l| ==> !Fails(l[k].severity)
  {
    if |l| == 0 then r
    else
      var init := l[..|l| - 1];
      assert forall k :: 0 <= k < |init| ==> init[k] == l[k];
      assert l == init + [l[|l| - 1]];
      AddIssue(AddIssues(r, init), l[|l| - 1])
  }

  function HasSeverity(s: Severity): Issue -> bool {
    (i: Issue) => i.severity == s
  }

  /** `get_issues_by_severity`: the issues of one severity, in order. */
  function IssuesBySeverity(r: ValidationResult, s: Severity): (l: seq<Issue>)
    ensures forall i :: i in l <==> i in r.issues && i.severity == s
  {
    var l := Filter(r.issues, HasSeverity(s));
    forall i ensures i in l <==> i in r.issues && i.severity == s {
      FilterMembership(r.issues, HasSeverity(s), i);
    }
    l
  }

  /** Each counter equals the number of issues of its severity. */
  predicate Tallied(r: ValidationResult) {
    && r.warningsCount == |IssuesBySeverity(r, Warning)|
    && r.errorsCount == |IssuesBySeverity(r, Error)|
    && r.criticalCount == |IssuesBySeverity(r, Critical)|
  }

  lemma AddIssueKeepsTally(r: ValidationResult, issue: Issue)
    requires Tallied(r)
    ensures Tallied(AddIssue(r, issue))
  {
    FilterAppend(r.issues, [issue], HasSeverity(Warning));
    FilterAppend(r.issues, [issue], HasSeverity(Error));
    FilterAppend(r.issues, [issue], HasSeverity(Critical));
  }

  /** Starting from an empty result, the counters are the sizes of
      `get_issues_by_severity`, and the result stays valid exactly when it
      started valid and no ERROR or CRITICAL issue was added. */
  lemma {:induction false} AddIssuesFromEmpty(isValid: bool, l: seq<Issue>)
    ensures AddIssues(NewResult(isValid), l).issues == l
    ensures Tallied(AddIssues(NewResult(isValid), l))
    ensures AddIssues(NewResult(isValid), l).isValid <==>
      isValid && forall k :: 0 <= k < |l| ==> !Fails(l[k].severity)
  {
    if |l| > 0 {
      var init := l[..|l| - 1];
      AddIssuesFromEmpty(isValid, init);
      AddIssueKeepsTally(AddIssues(NewResult(isValid), init), l[|l| - 1]);
      assert init + [l[|l| - 1]] == l;
    }
  }

  /** `add_issue` never makes an invalid result valid again. */
  lemma InvalidStaysInvalid(r: ValidationResult, l: seq<Issue>)
    requires !r.isValid
    ensures !AddIssues(r, l).isValid
  {
  }

  // ----- validate_value -----

  /** A cell value as far as the null test is concerned. */
  datatype RawValue = PyNone | NotAvailable | StrValue(s: string) | OtherValue

  /** `pd.isna(value) or value is None or (isinstance(value, str) and value.strip() == "")` */
  predicate IsNull(v: RawValue) {
    v.PyNone? || v.NotAvailable? || (v.StrValue? && Strip(v.s) == "")
  }

  /** What `_convert_value` produces: a number (int, float or Decimal), a
      string, or anything else. A bool result (for a `bool` column) is the
      number 0 or 1: `bool` is a subclass of `int`, so the range checks apply
      to it. */
  datatype Converted = NumberValue(x: real) | TextValue(s: string) | OtherConverted(tag: string)

  /** The outcomes of the library calls `validate_value` makes on one value:
      `_check_type`, `_convert_value` (or the exception it raises),
      `re.match` against the pattern, and each custom validator in order
      (its boolean, or the exception it raises). */
  datatype Outcomes = Outcomes(
    typeOk: bool,
    converted: Result<Converted>,
    matchesPattern: bool,
    custom: seq<Result<bool>>)

  /** `ColumnSchema`, less its type and metadata. */
  datatype ColumnSchema = ColumnSchema(
    name: string,
    required: bool,
    nullable: bool,
    minValue: Option<real>,
    maxValue: Option<real>,
    minLength: Option<int>,
    maxLength: Option<int>,
    pattern: Option<string>,
    allowedValues: Option<set<Converted>>)

  function ErrorIssue(schema: ColumnSchema, rule: Rule, row: Option<int>): Issue {
    Issue(rule, Error, Some(schema.name), row)
  }

  /** The five value checks of `validate_value` after conversion, each
      firing on its own. */
  predicate BelowMin(schema: ColumnSchema, c: Converted) {
    c.NumberValue? && schema.minValue.Some? && c.x < schema.minValue.value
  }

  predicate AboveMax(schema: ColumnSchema, c: Converted) {
    c.NumberValue? && schema.maxValue.Some? && c.x > schema.maxValue.value
  }

  predicate TooShort(schema: ColumnSchema, c: Converted) {
    c.TextValue? && schema.minLength.Some? && |c.s| < schema.minLength.value
  }

  predicate TooLong(schema: ColumnSchema, c: Converted) {
    c.TextValue? && schema.maxLength.Some? && |c.s| > schema.maxLength.value
  }

  /** A non-empty pattern the text does not match. */
  predicate Mismatch(schema: ColumnSchema, c: Converted, matchesPattern: bool) {
    c.TextValue? && schema.pattern.Some? && schema.pattern.value != "" && !matchesPattern
  }

  /** A non-empty set of allowed values that does not hold the value. */
  predicate NotAllowed(schema: ColumnSchema, c: Converted) {
    schema.allowedValues.Some? && |schema.allowedValues.value| > 0 && c !in schema.allowedValues.value
  }

  /** 1 for a check that fires, 0 otherwise. */
  function Fired(b: bool): nat {
    if b then 1 else 0
  }

  /** The range checks: one RANGE_CHECK error per bound the number breaks. */
  function RangeIssues(schema: ColumnSchema, c: Converted, row: Option<int>): (r: seq<Issue>)
    ensures forall k :: 0 <= k < |r| ==> r[k] == ErrorIssue(schema, RangeCheck, row)
    ensures |r| == Fired(BelowMin(schema, c)) + Fired(AboveMax(schema, c))
  {
    if c.NumberValue? then
      (if schema.minValue.Some? && c.x < schema.minValue.value then [ErrorIssue(schema, RangeCheck, row)] else [])
      + (if schema.maxValue.Some? && c.x > schema.maxValue.value then [ErrorIssue(schema, RangeCheck, row)] else [])
    else []
  }

  /** The text checks: one FORMAT_CHECK error per length bound the text
      breaks, and one more when it does not match a non-empty pattern. */
  function TextIssues(schema: ColumnSchema, c: Converted, matchesPattern: bool, row: Option<int>): (r: seq<Issue>)
    ensures forall k :: 0 <= k < |r| ==> r[k] == ErrorIssue(schema, FormatCheck, row)
    ensures |r| == Fired(TooShort(schema, c)) + Fired(TooLong(schema, c)) + Fired(Mismatch(schema, c, matchesPattern))
  {
    if c.TextValue? then
      (if schema.minLength.Some? && |c.s| < schema.minLength.value then [ErrorIssue(schema, FormatCheck, row)] else [])
      + (if schema.maxLength.Some? && |c.s| > schema.maxLength.value then [ErrorIssue(schema, FormatCheck, row)] else [])
      + (if schema.pattern.Some? && schema.pattern.value != "" && !matchesPattern
         then [ErrorIssue(schema, FormatCheck, row)] else [])
    else []
  }

  /** The allowed-values check: an empty set allows everything. */
  function AllowedIssues(schema: ColumnSchema, c: Converted, row: Option<int>): (r: seq<Issue>)
    ensures forall k :: 0 <= k < |r| ==> r[k] == ErrorIssue(schema, ReferenceCheck, row)
    ensures |r| == Fired(NotAllowed(schema, c))
  {
    if schema.allowedValues.Some? && |schema.allowedValues.value| > 0 && c !in schema.allowedValues.value
    then [ErrorIssue(schema, ReferenceCheck, row)]
    else []
  }

  function CustomIssues(schema: ColumnSchema, outcomes: seq<Result<bool>>, row: Option<int>): (r: seq<Issue>)
    ensures forall k :: 0 <= k < |r| ==> r[k] == ErrorIssue(schema, Custom, row)
  {
    if |outcomes| == 0 then []
    else (if outcomes[0] == Success(true) then [] else [ErrorIssue(schema, Custom, row)])
         + CustomIssues(schema, outcomes[1..], row)
  }

  function HasRule(rule: Rule): Issue -> bool {
    (i: Issue) => i.rule == rule
  }

  /** How many issues of `l` carry rule `rule`. */
  function CountRule(l: seq<Issue>, rule: Rule): nat {
    |Filter(l, HasRule(rule))|
  }

  /** A custom validator that returned False or raised. */
  predicate Failed(o: Result<bool>) {
    o != Success(true)
  }

  /** How many custom validators did not return True. */
  function CountFailed(outcomes: seq<Result<bool>>): nat {
    |Filter(outcomes, Failed)|
  }

  /** Every issue is an ERROR on this schema's column at this row. */
  predicate Reported(l: seq<Issue>, schema: ColumnSchema, row: Option<int>) {
    forall k :: 0 <= k < |l| ==> l[k].severity == Error && l[k].column == Some(schema.name) && l[k].row == row
  }

  lemma ReportedAppend(a: seq<Issue>, b: seq<Issue>, schema: ColumnSchema, row: Option<int>)
    requires Reported(a, schema, row) && Reported(b, schema, row)
    ensures Reported(a + b, schema, row)
  {
  }

  /** `validate_value`: a null value gets one REQUIRED or TYPE_CHECK error
      (or none when nullable); a value of the wrong type or that fails to
      convert gets one TYPE_CHECK error; otherwise each range, length,
      pattern and allowed-values check that fires adds one error of its rule,
      and each custom validator that does not return True one CUSTOM error. */
  function ValidateValue(schema: ColumnSchema, value: RawValue, row: Option<int>, out: Outcomes): (r: seq<Issue>)
    ensures Reported(r, schema, row)
    ensures IsNull(value) && schema.required ==> r == [ErrorIssue(schema, Required, row)]
    ensures IsNull(value) && !schema.required ==>
      r == if schema.nullable then [] else [ErrorIssue(schema, TypeCheck, row)]
    ensures !IsNull(value) && (!out.typeOk || out.converted.Failure?) ==>
      r == [ErrorIssue(schema, TypeCheck, row)]
    ensures !IsNull(value) && out.typeOk && out.converted.Success? ==>
      var c := out.converted.value;
      && CountRule(r, Required) == 0
      && CountRule(r, TypeCheck) == 0
      && CountRule(r, RangeCheck) == Fired(BelowMin(schema, c)) + Fired(AboveMax(schema, c))
      && CountRule(r, FormatCheck) == Fired(TooShort(schema, c)) + Fired(TooLong(schema, c))
                                      + Fired(Mismatch(schema, c, out.matchesPattern))
      && CountRule(r, ReferenceCheck) == Fired(NotAllowed(schema, c))
      && CountRule(r, Custom) == CountFailed(out.custom)
  {
    if IsNull(value) && schema.required then [ErrorIssue(schema, Required, row)]
    else if IsNull(value) then (if schema.nullable then [] else [ErrorIssue(schema, TypeCheck, row)])
    else if !out.typeOk || out.converted.Failure? then [ErrorIssue(schema, TypeCheck, row)]
    else
      var c := out.converted.value;
      var r := RangeIssues(schema, c, row) + TextIssues(schema, c, out.matchesPattern, row)
               + AllowedIssues(schema, c, row) + CustomIssues(schema, out.custom, row);
      ValueIssueRules(schema, c, out, row);
      r
  }

  lemma ValueIssueRules(schema: ColumnSchema, c: Converted, out: Outcomes, row: Option<int>)
    ensures var a, b, d := RangeIssues(schema, c, row), TextIssues(schema, c, out.matchesPattern, row), AllowedIssues(schema, c, row);
      var r := a + b + d + CustomIssues(schema, out.custom, row);
      && Reported(r, schema, row)
      && CountRule(r, Required) == 0 && CountRule(r, TypeCheck) == 0
      && CountRule(r, RangeCheck) == |a| && CountRule(r, FormatCheck) == |b|
      && CountRule(r, ReferenceCheck) == |d| && CountRule(r, Custom) == CountFailed(out.custom)
  {
    var a, b, d := RangeIssues(schema, c, row), TextIssues(schema, c, out.matchesPattern, row), AllowedIssues(schema, c, row);
    var e := CustomIssues(schema, out.custom, row);
    UniformParts(a, b, d, e, schema, row);
    CustomIssuesCount(schema, out.custom, row);
    CountRuleUniform(e, Custom, Custom);
  }

  /** Four lists of ERROR issues for one column and row, each under one rule. */
  lemma UniformParts(a: seq<Issue>, b: seq<Issue>, d: seq<Issue>, e: seq<Issue>, schema: ColumnSchema, row: Option<int>)
    requires forall k :: 0 <= k < |a| ==> a[k] == ErrorIssue(schema, RangeCheck, row)
    requires forall k :: 0 <= k < |b| ==> b[k] == ErrorIssue(schema, FormatCheck, row)
    requires forall k :: 0 <= k < |d| ==> d[k] == ErrorIssue(schema, ReferenceCheck, row)
    requires forall k :: 0 <= k < |e| ==> e[k] == ErrorIssue(schema, Custom, row)
    ensures var r := a + b + d + e;
      && Reported(r, schema, row)
      && CountRule(r, Required) == 0 && CountRule(r, TypeCheck) == 0
      && CountRule(r, RangeCheck) == |a| && CountRule(r, FormatCheck) == |b|
      && CountRule(r, ReferenceCheck) == |d| && CountRule(r, Custom) == |e|
  {
    ReportedAppend(a, b, schema, row);
    ReportedAppend(a + b, d, schema, row);
    ReportedAppend(a + b + d, e, schema, row);
    PartCounts(a, b, d, e, Required);
    PartCounts(a, b, d, e, TypeCheck);
    PartCounts(a, b, d, e, RangeCheck);
    PartCounts(a, b, d, e, FormatCheck);
    PartCounts(a, b, d, e, ReferenceCheck);
    PartCounts(a, b, d, e, Custom);
  }

  /** The four parts carry one rule each, so a rule's count is the length of
      its part. */
  lemma PartCounts(a: seq<Issue>, b: seq<Issue>, d: seq<Issue>, e: seq<Issue>, rule: Rule)
    requires forall k :: 0 <= k < |a| ==> a[k].rule == RangeCheck
    requires forall k :: 0 <= k < |b| ==> b[k].rule == FormatCheck
    requires forall k :: 0 <= k < |d| ==> d[k].rule == ReferenceCheck
    requires forall k :: 0 <= k < |e| ==> e[k].rule == Custom
    ensures CountRule(a + b + d + e, rule) ==
      (if rule == RangeCheck then |a| else 0) + (if rule == FormatCheck then |b| else 0)
      + (if rule == ReferenceCheck then |d| else 0) + (if rule == Custom then |e| else 0)
  {
    CountRuleAppend(a, b, rule);
    CountRuleAppend(a + b, d, rule);
    CountRuleAppend(a + b + d, e, rule);
    CountRuleUniform(a, RangeCheck, rule);
    CountRuleUniform(b, FormatCheck, rule);
    CountRuleUniform(d, ReferenceCheck, rule);
    CountRuleUniform(e, Custom, rule);
  }

  /** In a list whose issues all carry `carried`, `rule` counts every issue
      when it is that rule and none otherwise. */
  lemma {:induction false} CountRuleUniform(l: seq<Issue>, carried: Rule, rule: Rule)
    requires forall k :: 0 <= k < |l| ==> l[k].rule == carried
    ensures CountRule(l, rule) == if rule == carried then |l| else 0
  {
    if |l| > 0 {
      CountRuleUniform(l[1..], carried, rule);
      assert l == [l[0]] + l[1..];
      FilterAppend([l[0]], l[1..], HasRule(rule));
    }
  }

  lemma CountRuleAppend(a: seq<Issue>, b: seq<Issue>, rule: Rule)
    ensures CountRule(a + b, rule) == CountRule(a, rule) + CountRule(b, rule)
  {
    FilterAppend(a, b, HasRule(rule));
  }

  /** One CUSTOM issue per validator that returned False or raised. */
  lemma {:induction false} CustomIssuesCount(schema: ColumnSchema, outcomes: seq<Result<bool>>, row: Option<int>)
    ensures CountRule(CustomIssues(schema, outcomes, row), Custom) == CountFailed(outcomes)
    ensures CountRule(CustomIssues(schema, outcomes, row), Required) == 0
    ensures CountRule(CustomIssues(schema, outcomes, row), TypeCheck) == 0
  {
    if |outcomes| > 0 {
      CustomIssuesCount(schema, outcomes[1..], row);
      var head := if outcomes[0] == Success(true) then [] else [ErrorIssue(schema, Custom, row)];
      CountRuleAppend(head, CustomIssues(schema, outcomes[1..], row), Custom);
      CountRuleAppend(head, CustomIssues(schema, outcomes[1..], row), Required);
      CountRuleAppend(head, CustomIssues(schema, outcomes[1..], row), TypeCheck);
      assert outcomes == [outcomes[0]] + outcomes[1..];
      FilterAppend([outcomes[0]], outcomes[1..], Failed);
    }
  }

  /** With `min_value <= max_value` at most one range check fires ... */
  lemma OrderedBoundsOneRangeIssue(schema: ColumnSchema, c: Converted, row: Option<int>)
    requires schema.minValue.Some? && schema.maxValue.Some? && schema.minValue.value <= schema.maxValue.value
    ensures |RangeIssues(schema, c, row)| <= 1
  {
  }

  /** ... but the two checks are independent: with crossed bounds every
      number strictly between them trips both. */
  lemma CrossedBoundsTwoRangeIssues(schema: ColumnSchema, x: real, row: Option<int>)
    requires schema.minValue.Some? && schema.maxValue.Some?
    requires schema.maxValue.value < x < schema.minValue.value
    ensures RangeIssues(schema, NumberValue(x), row)
            == [ErrorIssue(schema, RangeCheck, row), ErrorIssue(schema, RangeCheck, row)]
  {
  }

  // ----- CPF and CNPJ -----

  /** `re.sub(r'\D', '', s)`: the decimal digits of `s`, in order. */
  function DecimalDigits(s: string): (d: string)
    ensures forall k :: 0 <= k < |d| ==> IsDecimalChar(d[k])
    ensures forall c :: c in d <==> c in s && IsDecimalChar(c)
  {
    var d := Filter(s, IsDecimalChar);
    forall c ensures c in d <==> c in s && IsDecimalChar(c) {
      FilterMembership(s, IsDecimalChar, c);
    }
    d
  }

  function DigitValues(d: string): (v: seq<int>)
    requires forall k :: 0 <= k < |d| ==> IsDecimalChar(d[k])
    ensures |v| == |d| && forall k :: 0 <= k < |v| ==> 0 <= v[k] <= 9
  {
    seq(|d|, k requires 0 <= k < |d| => DecimalCharValue(d[k]))
  }

  /** `sum(int(digit) * weight for digit, weight in zip(digits, weights))` */
  function WeightedSum(digits: seq<int>, weights: seq<int>): int {
    if |digits| == 0 || |weights| == 0 then 0
    else digits[0] * weights[0] + WeightedSum(digits[1..], weights[1..])
  }

  /** `0 if total % 11 < 2 else 11 - total % 11` */
  function Mod11Digit(total: int): (d: nat)
    ensures d <= 9
    ensures (total + d) % 11 == 0 || (d == 0 && total % 11 == 1)
  {
    var remainder := total % 11;
    if remainder < 2 then 0 else 11 - remainder
  }

  /** `range(hi, lo, -1)`: hi, hi - 1, ..., lo + 1. */
  function CountDown(hi: int, lo: int): (r: seq<int>)
    ensures |r| == if hi > lo then hi - lo else 0
    ensures forall k :: 0 <= k < |r| ==> r[k] == hi - k
    decreases hi - lo
  {
    if hi <= lo then [] else [hi] + CountDown(hi - 1, lo)
  }

  /** All characters equal the first: `s == s[0] * len(s)`. */
  predicate RepeatedChar(s: string) {
    |s| > 0 && forall k :: 0 <= k < |s| ==> s[k] == s[0]
  }

  /** `is_valid_cpf`. The check digits are compared as text with the ASCII
      rendering of the computed values. */
  function IsValidCpf(cpf: string): (ok: bool)
    ensures ok ==> |DecimalDigits(cpf)| == 11 && !RepeatedChar(DecimalDigits(cpf))
  {
    var d := DecimalDigits(cpf);
    if |d| != 11 || RepeatedChar(d) then false
    else
      var v := DigitValues(d);
      var first := Mod11Digit(WeightedSum(v[..9], CountDown(10, 1)));
      var second := Mod11Digit(WeightedSum(v[..10], CountDown(11, 1)));
      d[9..] == [DigitChar(first), DigitChar(second)]
  }

  const CnpjFirstWeights: seq<int> := [5, 4, 3, 2, 9, 8, 7, 6, 5, 4, 3, 2]
  const CnpjSecondWeights: seq<int> := [6, 5, 4, 3, 2, 9, 8, 7, 6, 5, 4, 3, 2]

  /** `is_valid_cnpj`: no repeated-digit rejection. */
  function IsValidCnpj(cnpj: string): (ok: bool)
    ensures ok ==> |DecimalDigits(cnpj)| == 14
  {
    var d := DecimalDigits(cnpj);
    if |d| != 14 then false
    else
      var v := DigitValues(d);
      var first := Mod11Digit(WeightedSum(v[..12], CnpjFirstWeights));
      var second := Mod11Digit(WeightedSum(v[..13], CnpjSecondWeights));
      d[12..] == [DigitChar(first), DigitChar(second)]
  }

  /** Punctuation and other non-digits make no difference. */
  lemma CpfIgnoresNonDigits(s: string)
    ensures IsValidCpf(s) == IsValidCpf(DecimalDigits(s))
    ensures IsValidCnpj(s) == IsValidCnpj(DecimalDigits(s))
  {
    FilterIdempotent(s, IsDecimalChar);
  }

  /** The weighted sum with weights top, top - 1, ... written position by
      position: digit k weighs top - k. */
  function PositionalSum(v: seq<int>, top: int): int {
    if |v| == 0 then 0 else PositionalSum(v[..|v| - 1], top) + (top - (|v| - 1)) * v[|v| - 1]
  }

  lemma {:induction false} WeightedSumShift(v: seq<int>, top: int)
    requires |v| > 0
    ensures PositionalSum(v, top) == top * v[0] + PositionalSum(v[1..], top - 1)
    decreases |v|
  {
    if |v| > 1 {
      var init := v[..|v| - 1];
      WeightedSumShift(init, top);
      assert init[1..] == v[1..][..|v[1..]| - 1];
      assert init[0] == v[0];
    }
  }

  /** The zip with `range(top, top - |v|, -1)` weighs digit k by top - k. */
  lemma {:induction false} CountDownSum(v: seq<int>, top: int)
    ensures WeightedSum(v, CountDown(top, top - |v|)) == PositionalSum(v, top)
    decreases |v|
  {
    if |v| > 0 {
      var w := CountDown(top, top - |v|);
      assert w[0] == top && w[1..] == CountDown(top - 1, top - |v|);
      CountDownSum(v[1..], top - 1);
      assert WeightedSum(v, w) == v[0] * top + WeightedSum(v[1..], w[1..]);
      WeightedSumShift(v, top);
    }
  }

  /** The CPF digits are the standard ones: digit k of the base weighs 10 - k
      for the first check digit and 11 - k for the second. */
  lemma CpfWeights(v: seq<int>)
    requires |v| == 11
    ensures WeightedSum(v[..9], CountDown(10, 1)) == PositionalSum(v[..9], 10)
    ensures WeightedSum(v[..10], CountDown(11, 1)) == PositionalSum(v[..10], 11)
  {
    CountDownSum(v[..9], 10);
    CountDownSum(v[..10], 11);
  }

  /** The two check characters of an ASCII 9-digit CPF base. */
  function CpfCheck(base: string): (c: string)
    requires |base| == 9 && forall k :: 0 <= k < 9 ==> IsAsciiDigit(base[k])
    ensures |c| == 2 && IsAsciiDigit(c[0]) && IsAsciiDigit(c[1])
  {
    var v := seq(9, k requires 0 <= k < 9 => DigitValue(base[k]));
    var first := Mod11Digit(PositionalSum(v, 10));
    var second := Mod11Digit(PositionalSum(v + [first], 11));
    [DigitChar(first), DigitChar(second)]
  }

  /** An ASCII CPF is accepted exactly when it is not one digit repeated and
      its last two digits are the check digits of its first nine. */
  lemma CpfCompletion(s: string)
    requires |s| == 11 && forall k :: 0 <= k < 11 ==> IsAsciiDigit(s[k])
    ensures IsValidCpf(s) <==> !RepeatedChar(s) && s[9..] == CpfCheck(s[..9])
  {
    assert DecimalDigits(s) == s by {
      AllDecimalKept(s);
    }
    var d := s;
    forall k | 0 <= k < 11 ensures DecimalCharValue(d[k]) == DigitValue(d[k]) {
      AsciiDigitIsDecimal(d[k]);
    }
    var v := DigitValues(d);
    CpfWeights(v);
    var vb := seq(9, k requires 0 <= k < 9 => DigitValue(s[..9][k]));
    assert v[..9] == vb;
    var first := Mod11Digit(PositionalSum(vb, 10));
    if d[9] == DigitChar(first) {
      assert v[..10] == vb + [first];
    }
  }

  lemma {:induction false} AllDecimalKept(s: string)
    requires forall k :: 0 <= k < |s| ==> IsAsciiDigit(s[k])
    ensures Filter(s, IsDecimalChar) == s
  {
    if |s| > 0 {
      AsciiDigitIsDecimal(s[0]);
      AllDecimalKept(s[1..]);
      assert s == [s[0]] + s[1..];
    }
  }

  /** A CPF made of one repeated digit is always rejected. */
  lemma RepeatedCpfRejected(s: string)
    requires |s| == 11 && RepeatedChar(s) && IsDecimalChar(s[0])
    ensures !IsValidCpf(s)
  {
    AllSameKept(s);
  }

  lemma {:induction false} AllSameKept(s: string)
    requires |s| > 0 && RepeatedChar(s) && IsDecimalChar(s[0])
    ensures Filter(s, IsDecimalChar) == s
  {
    if |s| > 1 {
      AllSameKept(s[1..]);
      assert s == [s[0]] + s[1..];
    }
  }

  /** A CNPJ of fourteen zeros passes: both check digits of an all-zero base are 0. */
  lemma ZeroCnpjAccepted()
    ensures IsValidCnpj(seq(14, _ => '0'))
  {
    var s: string := seq(14, _ => '0');
    AsciiDigitValues(s);
    var v := DigitValues(s);
    ZeroSum(v[..12], CnpjFirstWeights);
    ZeroSum(v[..13], CnpjSecondWeights);
    assert s[12..] == [DigitChar(0), DigitChar(0)];
  }

  lemma AsciiDigitValues(s: string)
    requires forall k :: 0 <= k < |s| ==> IsAsciiDigit(s[k])
    ensures DecimalDigits(s) == s
    ensures forall k :: 0 <= k < |s| ==> DigitValues(s)[k] == DigitValue(s[k])
  {
    AllDecimalKept(s);
    forall k | 0 <= k < |s| ensures DigitValues(s)[k] == DigitValue(s[k]) {
      AsciiDigitIsDecimal(s[k]);
    }
  }

  lemma {:induction false} ZeroSum(v: seq<int>, w: seq<int>)
    requires forall k :: 0 <= k < |v| ==> v[k] == 0
    ensures WeightedSum(v, w) == 0
  {
    if |v| > 0 && |w| > 0 {
      ZeroSum(v[1..], w[1..]);
    }
  }

  /** The standard CNPJ weights for an n-digit prefix: 2, 3, ..., 9 counted
      from the rightmost digit, starting over at 2 after 9. */
  function CnpjWeights(n: nat): (w: seq<int>)
    ensures |w| == n && forall k :: 0 <= k < n ==> 2 <= w[k] <= 9
  {
    seq(n, k requires 0 <= k < n => 2 + (n - 1 - k) % 8)
  }

  /** The weights run 2, 3, ..., 9, 2, 3, ... from the right. */
  lemma CnpjWeightsCycle(n: nat)
    ensures var w := CnpjWeights(n);
      && (n > 0 ==> w[n - 1] == 2)
      && forall k :: 0 < k < n ==> w[k - 1] == if w[k] == 9 then 2 else w[k] + 1
  {
    var w := CnpjWeights(n);
    forall k | 0 < k < n
      ensures w[k - 1] == if w[k] == 9 then 2 else w[k] + 1
    {
      ModEightStep(n - 1 - k);
    }
  }

  /** One more step past a multiple-of-8 boundary starts over at 0. */
  lemma ModEightStep(m: nat)
    ensures (m + 1) % 8 == if m % 8 == 7 then 0 else m % 8 + 1
  {
  }

  /** The two check characters of an ASCII 12-digit CNPJ base: the modulo-11
      digit of the base, then that of the base followed by the first. */
  function CnpjCheck(base: string): (c: string)
    requires |base| == 12 && forall k :: 0 <= k < 12 ==> IsAsciiDigit(base[k])
    ensures |c| == 2 && IsAsciiDigit(c[0]) && IsAsciiDigit(c[1])
  {
    var v := seq(12, k requires 0 <= k < 12 => DigitValue(base[k]));
    var first := Mod11Digit(WeightedSum(v, CnpjWeights(12)));
    var second := Mod11Digit(WeightedSum(v + [first], CnpjWeights(13)));
    [DigitChar(first), DigitChar(second)]
  }

  /** The two weight lists of `is_valid_cnpj` are the standard ones. */
  lemma CnpjWeightLists()
    ensures CnpjFirstWeights == CnpjWeights(12) && CnpjSecondWeights == CnpjWeights(13)
  {
  }

  /** An ASCII CNPJ is accepted exactly when its last two digits are the
      check digits of its first twelve: the two weight lists are the
      standard cyclic ones. */
  lemma CnpjCompletion(s: string)
    requires |s| == 14 && forall k :: 0 <= k < 14 ==> IsAsciiDigit(s[k])
    ensures IsValidCnpj(s) <==> s[12..] == CnpjCheck(s[..12])
  {
    AsciiDigitValues(s);
    CnpjWeightLists();
    var v := DigitValues(s);
    var vb := seq(12, k requires 0 <= k < 12 => DigitValue(s[..12][k]));
    assert v[..12] == vb;
    var first := Mod11Digit(WeightedSum(vb, CnpjWeights(12)));
    if s[12] == DigitChar(first) {
      assert v[..13] == vb + [first];
    }
  }
}
