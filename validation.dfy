/** The request validator: a completeness pass over the form fields, then
    three fail-fast format checks (email, phone, date). */
module Validation {
  import opened Php

  /** The form fields, in the order the action declares them. */
  datatype Field = Name | Email | Tel | From | Date | Comments

  const Fields: seq<Field> := [Name, Email, Tel, From, Date, Comments]

  /** The body parameter and error tag of each field. */
  function FieldName(f: Field): string
  {
    match f
    case Name => "name"
    case Email => "email"
    case Tel => "tel"
    case From => "from"
    case Date => "date"
    case Comments => "comments"
  }

  /** Submitted values by field; null when a parameter was not posted. */
  type Submission = map<Field, Option<string>>

  /** `$args['session'][$field]`: null when the field is absent. */
  function Get(s: Submission, f: Field): Option<string>
  {
    if f in s then s[f] else None
  }

  datatype Outcome = Pass | Fail(message: string)

  const MissingFieldsMessage := "Please complete all missing fields."
  const InvalidEmailMessage := "Please specify a valid email address."
  const InvalidPhoneMessage := "Please specify a valid phone number."
  const DateTooSoonMessage := "Please choose a date at least three weekdays from now."

  /** The minimum number of digits of a phone number. */
  const MinPhoneDigits := 10

  /** The library functions the format checks rely on, left uninterpreted:
      `filter_var($x, FILTER_VALIDATE_EMAIL)` succeeding, `strtotime($x)`
      (None for false) and the value of `strtotime('+3 weekdays')`. */
  datatype Checks = Checks(validEmail: string -> bool, strToTime: string -> Option<int>, threeWeekdays: int)

  /** Every field except comments must be filled in. */
  predicate Required(f: Field)
  {
    f != Comments
  }

  /** The fields of `fs` that are required and empty, in the order of `fs`. */
  function MissingIn(fs: seq<Field>, s: Submission): seq<Field>
  {
    if fs == [] then []
    else MissingIn(fs[..|fs| - 1], s) +
         (if Required(fs[|fs| - 1]) && Empty(Get(s, fs[|fs| - 1])) then [fs[|fs| - 1]] else [])
  }

  /** The fields the completeness pass records. */
  function Missing(s: Submission): seq<Field>
  {
    MissingIn(Fields, s)
  }

  /** `strtotime($date) < strtotime('+3 weekdays')`; a date that does not
      parse is false, which PHP compares to the threshold as a boolean. */
  function TooEarly(t: Option<int>, threshold: int): (r: bool)
    ensures t.Some? ==> (r <==> t.value < threshold)
    ensures t.None? ==> (r <==> threshold != 0)
  {
    match t
    case None => threshold != 0
    case Some(x) => x < threshold
  }

  predicate EmailValid(s: Submission, c: Checks)
  {
    c.validEmail(AsString(Get(s, Email)))
  }

  predicate PhoneValid(s: Submission)
  {
    DigitCount(AsString(Get(s, Tel))) >= MinPhoneDigits
  }

  predicate DateValid(s: Submission, c: Checks)
  {
    !TooEarly(c.strToTime(AsString(Get(s, Date))), c.threeWeekdays)
  }

  /** `validateRequest` as a function of the submitted values and the errors
      list it is handed: the new errors list and whether it threw, and with
      which message. */
  function Validate(s: Submission, errors0: seq<Field>, c: Checks): (r: (seq<Field>, Outcome))
    ensures |errors0| <= |r.0| && r.0[..|errors0|] == errors0
    ensures r.1 == Pass <==> r.0 == []
    ensures r.1.Fail? ==> r.1.message in {MissingFieldsMessage, InvalidEmailMessage, InvalidPhoneMessage, DateTooSoonMessage}
  {
    var errors := errors0 + Missing(s);
    if errors != [] then (errors, Fail(MissingFieldsMessage))
    else if !EmailValid(s, c) then (errors + [Email], Fail(InvalidEmailMessage))
    else if !PhoneValid(s) then (errors + [Tel], Fail(InvalidPhoneMessage))
    else if !DateValid(s, c) then (errors + [Date], Fail(DateTooSoonMessage))
    else (errors, Pass)
  }

  /** A field is recorded as missing exactly when it is required and empty. */
  lemma {:induction false} MissingInMembers(fs: seq<Field>, s: Submission, f: Field)
    ensures f in MissingIn(fs, s) <==> f in fs && Required(f) && Empty(Get(s, f))
    decreases |fs|
  {
    if fs != [] {
      MissingInMembers(fs[..|fs| - 1], s, f);
      assert fs == fs[..|fs| - 1] + [fs[|fs| - 1]];
    }
  }

  /** The position of each field in the declared order. */
  function Position(f: Field): (n: nat)
    ensures n < |Fields| && Fields[n] == f
  {
    match f
    case Name => 0
    case Email => 1
    case Tel => 2
    case From => 3
    case Date => 4
    case Comments => 5
  }

  predicate InFieldOrder(fs: seq<Field>)
  {
    forall i, j :: 0 <= i < j < |fs| ==> Position(fs[i]) < Position(fs[j])
  }

  /** The missing fields of a list in declaration order are in declaration
      order too, so none is recorded twice. */
  lemma {:induction false} MissingInOrdered(fs: seq<Field>, s: Submission)
    requires InFieldOrder(fs)
    ensures InFieldOrder(MissingIn(fs, s))
    decreases |fs|
  {
    if fs != [] {
      var init := fs[..|fs| - 1];
      var last := fs[|fs| - 1];
      var m := MissingIn(init, s);
      MissingInOrdered(init, s);
      var r := MissingIn(fs, s);
      assert r == m + (if Required(last) && Empty(Get(s, last)) then [last] else []);
      forall i, j | 0 <= i < j < |r| ensures Position(r[i]) < Position(r[j]) {
        if j >= |m| {
          MissingInMembers(init, s, m[i]);
          var a :| 0 <= a < |init| && init[a] == m[i];
          assert fs[a] == m[i];
        }
      }
    }
  }

  /** The completeness pass on the declared fields: a field is recorded
      exactly when it is required and empty, `comments` never, each field in
      declaration order, and nothing is recorded exactly when every required
      field is filled in. */
  lemma MissingFields(s: Submission)
    ensures forall f :: f in Missing(s) <==> Required(f) && Empty(Get(s, f))
    ensures Comments !in Missing(s)
    ensures InFieldOrder(Missing(s))
    ensures Missing(s) == [] <==> forall f :: Required(f) ==> !Empty(Get(s, f))
  {
    forall f ensures f in Missing(s) <==> Required(f) && Empty(Get(s, f)) {
      MissingInMembers(Fields, s, f);
      assert Fields[Position(f)] == f;
    }
    assert InFieldOrder(Fields) by {
      forall i, j | 0 <= i < j < |Fields| ensures Position(Fields[i]) < Position(Fields[j]) {
        assert Position(Fields[i]) == i && Position(Fields[j]) == j;
      }
    }
    MissingInOrdered(Fields, s);
    if Missing(s) != [] {
      assert Missing(s)[0] in Missing(s);
    }
  }

  /** Completeness: when a required field is empty the validator fails with
      the completeness message and appends exactly the empty required fields. */
  lemma IncompleteFails(s: Submission, errors0: seq<Field>, c: Checks)
    requires exists f :: Required(f) && Empty(Get(s, f))
    ensures Validate(s, errors0, c) == (errors0 + Missing(s), Fail(MissingFieldsMessage))
  {
    MissingFields(s);
  }

  /** Fail-fast: once every required field is filled in (and no error was
      recorded before), at most one tag is appended, chosen by the first
      failing check in the order email, phone, date. */
  lemma FailFast(s: Submission, c: Checks)
    requires forall f :: Required(f) ==> !Empty(Get(s, f))
    ensures Validate(s, [], c) ==
              if !EmailValid(s, c) then ([Email], Fail(InvalidEmailMessage))
              else if !PhoneValid(s) then ([Tel], Fail(InvalidPhoneMessage))
              else if !DateValid(s, c) then ([Date], Fail(DateTooSoonMessage))
              else ([], Pass)
  {
    MissingFields(s);
    assert Missing(s) == [];
    assert Validate(s, [], c).0 == (if !EmailValid(s, c) then [Email] else if !PhoneValid(s) then [Tel] else if !DateValid(s, c) then [Date] else []);
  }

  /** Later checks are not evaluated: after a failing email check nothing
      about the phone or the date matters. */
  lemma LaterChecksIgnored(s: Submission, s': Submission, errors0: seq<Field>, c: Checks, c': Checks)
    requires forall f :: f != Tel && f != Date ==> Get(s, f) == Get(s', f)
    requires forall f :: f == Tel || f == Date ==> Empty(Get(s, f)) == Empty(Get(s', f))
    requires c.validEmail == c'.validEmail
    requires !EmailValid(s, c)
    ensures Validate(s, errors0, c) == Validate(s', errors0, c')
  {
    assert Missing(s) == Missing(s') by {
      MissingFields(s);
      MissingFields(s');
      MissingInAgree(Fields, s, s');
    }
  }

  /** After a passing email check and a failing phone check nothing about the
      date matters. */
  lemma DateIgnoredAfterPhone(s: Submission, s': Submission, errors0: seq<Field>, c: Checks, c': Checks)
    requires forall f :: f != Date ==> Get(s, f) == Get(s', f)
    requires Empty(Get(s, Date)) == Empty(Get(s', Date))
    requires c.validEmail == c'.validEmail
    requires EmailValid(s, c) && !PhoneValid(s)
    ensures Validate(s, errors0, c) == Validate(s', errors0, c')
  {
    assert Missing(s) == Missing(s') by {
      MissingInAgree(Fields, s, s');
    }
  }

  /** A date `strtotime` cannot parse is false, and `false < threshold`
      compares as booleans: with every other check passing, such a date fails
      exactly when the threshold is non-zero. */
  lemma UnparsableDate(s: Submission, c: Checks)
    requires forall f :: Required(f) ==> !Empty(Get(s, f))
    requires EmailValid(s, c) && PhoneValid(s)
    requires c.strToTime(AsString(Get(s, Date))) == None
    ensures Validate(s, [], c) == if c.threeWeekdays != 0 then ([Date], Fail(DateTooSoonMessage)) else ([], Pass)
  {
    FailFast(s, c);
  }

  /** Two submissions with the same empty fields record the same missing fields. */
  lemma {:induction false} MissingInAgree(fs: seq<Field>, s: Submission, s': Submission)
    requires forall f :: Empty(Get(s, f)) == Empty(Get(s', f))
    ensures MissingIn(fs, s) == MissingIn(fs, s')
    decreases |fs|
  {
    if fs != [] {
      MissingInAgree(fs[..|fs| - 1], s, s');
    }
  }

  /** Validation passes exactly when no error was recorded before, every
      required field is filled in, the email predicate holds, the phone number
      has at least ten digits and the date is not before the threshold; the
      errors list is then left as it was, that is empty. */
  lemma PassIff(s: Submission, errors0: seq<Field>, c: Checks)
    ensures Validate(s, errors0, c).1 == Pass <==>
              errors0 == [] && (forall f :: Required(f) ==> !Empty(Get(s, f))) &&
              EmailValid(s, c) && PhoneValid(s) && DateValid(s, c)
    ensures Validate(s, errors0, c).1 == Pass ==> Validate(s, errors0, c).0 == errors0 == []
  {
    MissingFields(s);
  }

  /** A submission with every field filled in but the comments. */
  function Example(email: string, tel: string): Submission
  {
    map[Name := Some("A"), Email := Some(email), Tel := Some(tel), From := Some("x"),
        Date := Some("2030-01-07"), Comments := Some("")]
  }

  /** An address the email predicate rejects fails with the email message and
      the single tag `email`, whatever the phone number and the date. */
  lemma ExampleInvalidEmail(c: Checks)
    requires !c.validEmail("not-an-email")
    ensures Validate(Example("not-an-email", "5551234567"), [], c) == ([Email], Fail(InvalidEmailMessage))
  {
    FailFast(Example("not-an-email", "5551234567"), c);
  }

  /** A phone number of five digits fails with the phone message. */
  lemma ExampleShortPhone(c: Checks)
    requires c.validEmail("a@b.c")
    ensures Validate(Example("a@b.c", "555-12"), [], c) == ([Tel], Fail(InvalidPhoneMessage))
  {
    var s := Example("a@b.c", "555-12");
    assert DigitCount("555-12") == 5 by {
      DigitCountIsOccurrences("555-12");
      assert multiset("555-12") == multiset{'5', '5', '5', '-', '1', '2'};
    }
    assert Get(s, Tel) == Some("555-12");
    assert !PhoneValid(s);
    FailFast(s, c);
  }
}
