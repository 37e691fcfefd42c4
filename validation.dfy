/**
 * The server's bug-input validator (server/utils/validation.js).
 *
 * A request body is a JSON object; each of the five bug fields is either
 * undefined, a string, or some other JSON value.  JavaScript strings are
 * modelled as `string`, with their `.length` counted in UTF-16 code units
 * and `.trim()` removing the ECMAScript whitespace and line-terminator
 * characters from both ends.
 */
module Validation {

  /** One field of a request body, as JavaScript sees it. */
  datatype Value =
    | Absent                // `undefined`: the key is missing
    | Str(s: string)        // a string
    | Other(truthy: bool)   // any other JSON value (number, boolean, null, object, array)

  /** The five fields `validateBugInput` destructures from its argument. */
  datatype Input = Input(title: Value, description: Value, status: Value, priority: Value, reporter: Value)

  /** The bug fields, in the order the validator checks them. */
  datatype Field = Title | Description | Status | Priority | Reporter

  /** `{ error: null }` or `{ error: { message } }`. */
  datatype Check = Pass | Fail(message: string)

  const AllowedStatuses: seq<string> := ["open", "in-progress", "resolved", "closed"]
  const AllowedPriorities: seq<string> := ["low", "medium", "high"]

  const TitleMessage := "Title is required and must be between 3 and 100 characters."
  const DescriptionMessage := "Description is required and cannot exceed 500 characters."
  const StatusMessage := "Status must be one of: open, in-progress, resolved, closed."
  const PriorityMessage := "Priority must be one of: low, medium, high."
  const ReporterMessage := "Reporter is required and cannot exceed 50 characters."
  const InvalidStatusMessage := "Invalid status. Must be one of: open, in-progress, resolved, closed."

  function Get(data: Input, f: Field): Value
  {
    match f
    case Title => data.title
    case Description => data.description
    case Status => data.status
    case Priority => data.priority
    case Reporter => data.reporter
  }

  /** Position of a field in the checking order. */
  function Rank(f: Field): nat
  {
    match f
    case Title => 0
    case Description => 1
    case Status => 2
    case Priority => 3
    case Reporter => 4
  }

  /** The message reported when `f` is the failing field. */
  function Message(f: Field): string
  {
    match f
    case Title => TitleMessage
    case Description => DescriptionMessage
    case Status => StatusMessage
    case Priority => PriorityMessage
    case Reporter => ReporterMessage
  }

  // ---------------------------------------------------------------------
  // JavaScript string primitives
  // ---------------------------------------------------------------------

  /** The characters `String.prototype.trim` removes (WhiteSpace and LineTerminator). */
  predicate IsWhitespace(c: char)
  {
    || c == '\t' || c == '\n' || c == '\U{000B}' || c == '\U{000C}' || c == '\r'
    || c == ' ' || c == '\U{00A0}' || c == '\U{1680}'
    || ('\U{2000}' <= c <= '\U{200A}')
    || c == '\U{2028}' || c == '\U{2029}' || c == '\U{202F}' || c == '\U{205F}'
    || c == '\U{3000}' || c == '\U{FEFF}'
  }

  predicate AllWhitespace(s: string)
  {
    forall k :: 0 <= k < |s| ==> IsWhitespace(s[k])
  }

  /** `s.length`: characters outside the Basic Multilingual Plane take two UTF-16 code units. */
  function JsLength(s: string): (r: nat)
    ensures |s| <= r <= 2 * |s|
  {
    if s == [] then 0 else (if s[0] <= '\U{FFFF}' then 1 else 2) + JsLength(s[1..])
  }

  /** A string within the Basic Multilingual Plane has one code unit per character. */
  lemma {:induction false} JsLengthOfBmp(s: string)
    requires forall k :: 0 <= k < |s| ==> s[k] <= '\U{FFFF}'
    ensures JsLength(s) == |s|
  {
    if s != [] {
      assert forall k :: 0 <= k < |s[1..]| ==> s[1..][k] == s[k + 1];
      JsLengthOfBmp(s[1..]);
    }
  }

  function TrimStart(s: string): (r: string)
    ensures |r| <= |s|
    ensures r == [] || !IsWhitespace(r[0])
  {
    if s != [] && IsWhitespace(s[0]) then TrimStart(s[1..]) else s
  }

  function TrimEnd(s: string): (r: string)
    ensures |r| <= |s|
    ensures r == [] || (r[0] == s[0] && !IsWhitespace(r[|r| - 1]))
  {
    if s != [] && IsWhitespace(s[|s| - 1]) then TrimEnd(s[..|s| - 1]) else s
  }

  /** `trimStart` removes a prefix made only of whitespace. */
  lemma {:induction false} TrimStartDropsWhitespace(s: string)
    ensures TrimStart(s) == s[|s| - |TrimStart(s)|..]
    ensures AllWhitespace(s[..|s| - |TrimStart(s)|])
  {
    if s != [] && IsWhitespace(s[0]) {
      TrimStartDropsWhitespace(s[1..]);
      var n := |s| - |TrimStart(s)|;
      assert s[..n] == [s[0]] + s[1..][..n - 1];
    }
  }

  /** `trimEnd` removes a suffix made only of whitespace. */
  lemma {:induction false} TrimEndDropsWhitespace(s: string)
    ensures TrimEnd(s) == s[..|TrimEnd(s)|]
    ensures AllWhitespace(s[|TrimEnd(s)|..])
  {
    if s != [] && IsWhitespace(s[|s| - 1]) {
      var init := s[..|s| - 1];
      TrimEndDropsWhitespace(init);
      assert s[|TrimEnd(s)|..] == init[|TrimEnd(init)|..] + [s[|s| - 1]];
    }
  }

  /** `s.trim()`: the infix of `s` left after removing whitespace at both ends. */
  function Trim(s: string): (r: string)
    ensures |r| <= |s|
    ensures r == [] || (!IsWhitespace(r[0]) && !IsWhitespace(r[|r| - 1]))
  {
    TrimEnd(TrimStart(s))
  }

  /** No whitespace at either end: what `trim` leaves. */
  predicate Trimmed(s: string)
  {
    s == [] || (!IsWhitespace(s[0]) && !IsWhitespace(s[|s| - 1]))
  }

  /** `trim` yields the empty string exactly on strings made only of whitespace. */
  lemma TrimEmptyIff(s: string)
    ensures Trim(s) == [] <==> AllWhitespace(s)
  {
    var t := TrimStart(s);
    TrimStartDropsWhitespace(s);
    TrimEndDropsWhitespace(t);
    if Trim(s) == [] {
      assert s == s[..|s| - |t|] + t;
      assert t == t[|TrimEnd(t)|..];
    } else {
      assert Trim(s)[0] == s[|s| - |t|];
    }
  }

  /** `trim` leaves a string with no whitespace at its ends unchanged, so it is idempotent. */
  lemma TrimFixesTrimmed(s: string)
    requires Trimmed(s)
    ensures Trim(s) == s
  {
  }

  // ---------------------------------------------------------------------
  // validateBugInput and validateBugStatus
  // ---------------------------------------------------------------------

  /** JavaScript's `!v`. */
  predicate Falsy(v: Value)
  {
    v.Absent? || v == Str("") || v == Other(false)
  }

  /** `list.includes(v)` for a list of strings. */
  predicate Includes(list: seq<string>, v: Value)
  {
    v.Str? && v.s in list
  }

  /**
   * What each field must satisfy, stated independently of the validator's
   * chain of early returns.
   */
  predicate FieldOk(f: Field, v: Value)
  {
    match f
    case Title => v.Str? && 3 <= JsLength(Trim(v.s)) <= 100
    case Description => v.Str? && v.s != "" && JsLength(Trim(v.s)) <= 500
    case Status => v.Str? && v.s in AllowedStatuses
    case Priority => v.Str? && v.s in AllowedPriorities
    case Reporter => v.Str? && 1 <= JsLength(Trim(v.s)) <= 50
  }

  /** Whether the validator looks at field `f` at all. */
  predicate Checked(data: Input, f: Field, isPartial: bool)
  {
    !isPartial || !Get(data, f).Absent?
  }

  /** Field `f` is checked and is not acceptable. */
  predicate Fails(data: Input, f: Field, isPartial: bool)
  {
    Checked(data, f, isPartial) && !FieldOk(f, Get(data, f))
  }

  /**
   * No field that comes before `f` fails; the checking order is title,
   * description, status, priority, reporter.
   */
  predicate NoneFailBefore(data: Input, f: Field, isPartial: bool)
    decreases Rank(f)
  {
    match f
    case Title => true
    case Description => !Fails(data, Title, isPartial)
    case Status => NoneFailBefore(data, Description, isPartial) && !Fails(data, Description, isPartial)
    case Priority => NoneFailBefore(data, Status, isPartial) && !Fails(data, Status, isPartial)
    case Reporter => NoneFailBefore(data, Priority, isPartial) && !Fails(data, Priority, isPartial)
  }

  /** `f` fails and no field checked before it does. */
  predicate FirstFailure(data: Input, f: Field, isPartial: bool)
  {
    Fails(data, f, isPartial) && NoneFailBefore(data, f, isPartial)
  }

  // The tests of lines 19, 25, 31, 37 and 43, each rejecting one field's value.

  predicate TitleRejected(title: Value)
  {
    Falsy(title) || !title.Str? || JsLength(Trim(title.s)) < 3 || JsLength(Trim(title.s)) > 100
  }

  predicate DescriptionRejected(description: Value)
  {
    Falsy(description) || !description.Str? || JsLength(Trim(description.s)) > 500
  }

  predicate StatusRejected(status: Value)
  {
    Falsy(status) || !Includes(AllowedStatuses, status)
  }

  predicate PriorityRejected(priority: Value)
  {
    Falsy(priority) || !Includes(AllowedPriorities, priority)
  }

  predicate ReporterRejected(reporter: Value)
  {
    Falsy(reporter) || !reporter.Str? || JsLength(Trim(reporter.s)) == 0 || JsLength(Trim(reporter.s)) > 50
  }

  /**
   * `validateBugInput(data, isPartial)`: in full mode every field is checked;
   * in partial mode only the fields that are not `undefined`.  The first
   * failing field, in the order title, description, status, priority,
   * reporter, determines the one message reported.
   */
  function ValidateBugInput(data: Input, isPartial: bool): (r: Check)
    ensures r.Pass? || r.message in {TitleMessage, DescriptionMessage, StatusMessage, PriorityMessage, ReporterMessage}
  {
    var Input(title, description, status, priority, reporter) := data;
    if (!isPartial || !title.Absent?) && TitleRejected(title) then
      Fail(TitleMessage)
    else if (!isPartial || !description.Absent?) && DescriptionRejected(description) then
      Fail(DescriptionMessage)
    else if (!isPartial || !status.Absent?) && StatusRejected(status) then
      Fail(StatusMessage)
    else if (!isPartial || !priority.Absent?) && PriorityRejected(priority) then
      Fail(PriorityMessage)
    else if (!isPartial || !reporter.Absent?) && ReporterRejected(reporter) then
      Fail(ReporterMessage)
    else
      Pass
  }

  /** `validateBugStatus(status)`: the enum check on its own, with its own message. */
  function ValidateBugStatus(status: Value): (r: Check)
    ensures r.Pass? <==> FieldOk(Status, status)
    ensures r.Fail? ==> r.message == InvalidStatusMessage
  {
    if Falsy(status) || !Includes(AllowedStatuses, status) then Fail(InvalidStatusMessage) else Pass
  }

  /** Each field's test in the validator rejects exactly what `FieldOk` does not accept. */
  lemma RejectedIffNotOk(v: Value)
    ensures TitleRejected(v) <==> !FieldOk(Title, v)
    ensures DescriptionRejected(v) <==> !FieldOk(Description, v)
    ensures StatusRejected(v) <==> !FieldOk(Status, v)
    ensures PriorityRejected(v) <==> !FieldOk(Priority, v)
    ensures ReporterRejected(v) <==> !FieldOk(Reporter, v)
  {
  }

  /** A field fails exactly when the validator's guard for it fires. */
  lemma FailsIffGuardFires(data: Input, isPartial: bool)
    ensures Fails(data, Title, isPartial) <==> Checked(data, Title, isPartial) && TitleRejected(data.title)
    ensures Fails(data, Description, isPartial) <==> Checked(data, Description, isPartial) && DescriptionRejected(data.description)
    ensures Fails(data, Status, isPartial) <==> Checked(data, Status, isPartial) && StatusRejected(data.status)
    ensures Fails(data, Priority, isPartial) <==> Checked(data, Priority, isPartial) && PriorityRejected(data.priority)
    ensures Fails(data, Reporter, isPartial) <==> Checked(data, Reporter, isPartial) && ReporterRejected(data.reporter)
  {
    RejectedIffNotOk(data.title);
    RejectedIffNotOk(data.description);
    RejectedIffNotOk(data.status);
    RejectedIffNotOk(data.priority);
    RejectedIffNotOk(data.reporter);
  }

  /** The validator reports field `f`'s message exactly when `f` is the first failing field. */
  lemma ReportsFirstFailure(data: Input, isPartial: bool, f: Field)
    ensures ValidateBugInput(data, isPartial) == Fail(Message(f)) <==> FirstFailure(data, f, isPartial)
  {
    FailsIffGuardFires(data, isPartial);
  }

  /** The validator passes exactly when no field it checks fails. */
  lemma PassesIffNoFailure(data: Input, isPartial: bool)
    ensures ValidateBugInput(data, isPartial).Pass? <==> forall f :: !Fails(data, f, isPartial)
  {
    FailsIffGuardFires(data, isPartial);
    if ValidateBugInput(data, isPartial).Pass? {
      forall f ensures !Fails(data, f, isPartial) {
        match f
        case Title =>
        case Description =>
        case Status =>
        case Priority =>
        case Reporter =>
      }
    }
  }

  /** In full mode the validator passes exactly when all five fields are acceptable strings. */
  lemma FullModeAccepts(data: Input)
    ensures ValidateBugInput(data, false).Pass? <==>
      && data.title.Str? && 3 <= JsLength(Trim(data.title.s)) <= 100
      && data.description.Str? && data.description.s != "" && JsLength(Trim(data.description.s)) <= 500
      && data.status.Str? && data.status.s in AllowedStatuses
      && data.priority.Str? && data.priority.s in AllowedPriorities
      && data.reporter.Str? && 1 <= JsLength(Trim(data.reporter.s)) <= 50
  {
    PassesIffNoFailure(data, false);
    if !ValidateBugInput(data, false).Pass? {
      var f :| Fails(data, f, false);
      match f
      case Title =>
      case Description =>
      case Status =>
      case Priority =>
      case Reporter =>
    }
  }

  /** A body that passes full mode has an acceptable value in every field. */
  lemma FullPassFieldsOk(data: Input)
    requires ValidateBugInput(data, false).Pass?
    ensures FieldOk(Title, data.title) && FieldOk(Description, data.description) && FieldOk(Status, data.status)
    ensures FieldOk(Priority, data.priority) && FieldOk(Reporter, data.reporter)
  {
    PassesIffNoFailure(data, false);
    assert !Fails(data, Title, false) && !Fails(data, Description, false) && !Fails(data, Status, false);
    assert !Fails(data, Priority, false) && !Fails(data, Reporter, false);
  }

  /** Partial mode skips every undefined field, so an empty body passes. */
  lemma PartialEmptyPasses()
    ensures ValidateBugInput(Input(Absent, Absent, Absent, Absent, Absent), true) == Pass
  {
  }

  /** Whatever passes full mode passes partial mode. */
  lemma FullImpliesPartial(data: Input)
    requires ValidateBugInput(data, false).Pass?
    ensures ValidateBugInput(data, true).Pass?
  {
    PassesIffNoFailure(data, false);
    PassesIffNoFailure(data, true);
    forall f ensures !Fails(data, f, true) {
      assert !Fails(data, f, false);
    }
  }

  /** On a body with every field defined, partial mode checks exactly what full mode does. */
  lemma PartialIsFullWhenComplete(data: Input)
    requires forall f :: !Get(data, f).Absent?
    ensures ValidateBugInput(data, true) == ValidateBugInput(data, false)
  {
    assert !Get(data, Title).Absent? && !Get(data, Description).Absent? && !Get(data, Status).Absent?;
    assert !Get(data, Priority).Absent? && !Get(data, Reporter).Absent?;
  }

  // ---------------------------------------------------------------------
  // Boundaries, shown on strings of one repeated letter
  // ---------------------------------------------------------------------

  function Repeat(c: char, n: nat): (r: string)
    ensures |r| == n && forall k :: 0 <= k < n ==> r[k] == c
  {
    if n == 0 then [] else [c] + Repeat(c, n - 1)
  }

  /** A run of `n` copies of a letter is its own trim and is `n` UTF-16 units long. */
  lemma LetterRun(c: char, n: nat)
    requires 'a' <= c <= 'z'
    ensures Trim(Repeat(c, n)) == Repeat(c, n) && JsLength(Repeat(c, n)) == n
  {
    var s := Repeat(c, n);
    TrimFixesTrimmed(s);
    JsLengthOfBmp(s);
  }

  /** A title of trimmed length 3 or 100 is accepted, one of 2 or 101 rejected. */
  lemma TitleBounds(n: nat)
    ensures FieldOk(Title, Str(Repeat('x', n))) <==> 3 <= n <= 100
  {
    LetterRun('x', n);
  }

  /** A reporter of trimmed length 50 is accepted, 51 rejected, and so is an empty one. */
  lemma ReporterBounds(n: nat)
    ensures FieldOk(Reporter, Str(Repeat('x', n))) <==> 1 <= n <= 50
  {
    LetterRun('x', n);
  }

  lemma {:induction false} TrimStartPadded(pre: string, mid: string)
    requires AllWhitespace(pre) && (mid == [] || !IsWhitespace(mid[0]))
    ensures TrimStart(pre + mid) == mid
  {
    if pre != [] {
      assert (pre + mid)[1..] == pre[1..] + mid;
      TrimStartPadded(pre[1..], mid);
    }
  }

  lemma {:induction false} TrimEndPadded(mid: string, post: string)
    requires AllWhitespace(post) && (mid == [] || !IsWhitespace(mid[|mid| - 1]))
    ensures TrimEnd(mid + post) == mid
  {
    if post != [] {
      var last := |post| - 1;
      assert (mid + post)[..|mid + post| - 1] == mid + post[..last];
      TrimEndPadded(mid, post[..last]);
    }
  }

  /** `trim` removes exactly the whitespace around a string that has none at its ends. */
  lemma TrimPadded(pre: string, mid: string, post: string)
    requires AllWhitespace(pre) && AllWhitespace(post)
    requires mid != [] && !IsWhitespace(mid[0]) && !IsWhitespace(mid[|mid| - 1])
    ensures Trim(pre + mid + post) == mid
  {
    assert pre + mid + post == pre + (mid + post);
    TrimStartPadded(pre, mid + post);
    TrimEndPadded(mid, post);
  }

  /** Surrounding whitespace does not count towards a title's length. */
  lemma TitlePaddingIgnored(n: nat)
    ensures FieldOk(Title, Str(" " + Repeat('x', n) + "\t\n")) <==> 3 <= n <= 100
  {
    LetterRun('x', n);
    var mid := Repeat('x', n);
    if n > 0 {
      assert AllWhitespace(" ") && AllWhitespace("\t\n");
      assert !IsWhitespace(mid[0]) && !IsWhitespace(mid[|mid| - 1]);
      TrimPadded(" ", mid, "\t\n");
    } else {
      assert AllWhitespace(" " + mid + "\t\n");
      TrimEmptyIff(" " + mid + "\t\n");
    }
  }

  /** A reporter made only of whitespace is rejected. */
  lemma WhitespaceReporterRejected(s: string)
    requires AllWhitespace(s)
    ensures !FieldOk(Reporter, Str(s))
  {
    TrimEmptyIff(s);
  }

  /**
   * The description's only lower bound is the non-empty test on the untrimmed
   * string: "" is rejected, but a non-empty run of whitespace of any length is
   * accepted, since only the trimmed length is capped.
   */
  lemma DescriptionLowerBound(s: string)
    requires AllWhitespace(s)
    ensures FieldOk(Description, Str(s)) <==> s != ""
  {
    TrimEmptyIff(s);
  }

  /** Status and priority are compared case-exactly. */
  lemma EnumsAreCaseExact()
    ensures !FieldOk(Status, Str("Open")) && FieldOk(Status, Str("open"))
    ensures !FieldOk(Priority, Str("HIGH")) && FieldOk(Priority, Str("high"))
    ensures ValidateBugStatus(Str("Open")) == Fail(InvalidStatusMessage)
  {
  }
}
