/** The contact form: its schema, its default values, the payload the
    mutation posts (the form data without `consent`) and the reset after a
    successful submission. The email-format check is a parameter `isEmail`.
 */
module Contact {
  import opened Wrappers
  import opened Json
  import opened Schema

  /** The form values; `None` is an optional field left `undefined`. */
  datatype FormData = FormData(
    name: string,
    email: string,
    phone: Option<string>,
    inquiryType: Option<string>,
    message: Option<string>,
    consent: bool)

  /** `defaultValues`: every text field empty, `consent` unchecked. */
  function Defaults(): (d: FormData)
    ensures d.name == "" && d.email == "" && !d.consent
    ensures d.phone == Some("") && d.inquiryType == Some("") && d.message == Some("")
  {
    FormData("", "", Some(""), Some(""), Some(""), false)
  }

  const MinNameLength: nat := 2

  /** A failed check of `formSchema`, one per field that can fail. */
  datatype FieldError = NameTooShort | InvalidEmail | NoConsent

  /** The message zod attaches to each failed check. */
  function ErrorMessage(e: FieldError): string {
    match e
    case NameTooShort => "Name must be at least 2 characters"
    case InvalidEmail => "Please enter a valid email address"
    case NoConsent => "You must agree to be contacted"
  }

  /** `formSchema`'s verdict: the failed checks in field order. A name of at
      least two characters, an email address and `consent` exactly true are
      required; the optional fields never fail. */
  function FormErrors(d: FormData, isEmail: string -> bool): (errs: seq<FieldError>)
    ensures NameTooShort in errs <==> |d.name| < MinNameLength
    ensures InvalidEmail in errs <==> !isEmail(d.email)
    ensures NoConsent in errs <==> !d.consent
    ensures forall i, j :: 0 <= i < j < |errs| ==> errs[i] != errs[j]
  {
    (if |d.name| < MinNameLength then [NameTooShort] else [])
    + (if isEmail(d.email) then [] else [InvalidEmail])
    + (if d.consent then [] else [NoConsent])
  }

  /** The resolver lets a submission through exactly when no check failed. */
  predicate FormValid(d: FormData, isEmail: string -> bool) {
    FormErrors(d, isEmail) == []
  }

  /** The form passes exactly when the name has at least two characters,
      the email is an address and `consent` is ticked. */
  lemma {:induction false} FormValidIff(d: FormData, isEmail: string -> bool)
    ensures FormValid(d, isEmail) <==> |d.name| >= MinNameLength && isEmail(d.email) && d.consent
  {
    var errs := FormErrors(d, isEmail);
    if errs != [] {
      assert errs[0] in errs;
    }
  }

  /** The defaults never pass: `consent` starts unchecked. */
  lemma {:induction false} DefaultsInvalid(isEmail: string -> bool)
    ensures !FormValid(Defaults(), isEmail)
  {
    FormValidIff(Defaults(), isEmail);
  }

  /** Validity depends on name, email and consent only. */
  lemma {:induction false} OptionalFieldsNeverReject(d: FormData, phone: Option<string>, kind: Option<string>,
                                  message: Option<string>, isEmail: string -> bool)
    ensures FormValid(d.(phone := phone, inquiryType := kind, message := message), isEmail)
         == FormValid(d, isEmail)
    ensures !d.consent ==> !FormValid(d, isEmail)
    ensures |d.name| < MinNameLength ==> !FormValid(d, isEmail)
  {
    FormValidIff(d, isEmail);
    FormValidIff(d.(phone := phone, inquiryType := kind, message := message), isEmail);
  }

  /** `const { consent, ...inquiryData } = data`. */
  datatype InquiryData = InquiryData(
    name: string,
    email: string,
    phone: Option<string>,
    inquiryType: Option<string>,
    message: Option<string>)

  function Payload(d: FormData): (p: InquiryData)
    ensures p.name == d.name && p.email == d.email
    ensures p.phone == d.phone && p.inquiryType == d.inquiryType && p.message == d.message
  {
    InquiryData(d.name, d.email, d.phone, d.inquiryType, d.message)
  }

  /** Putting `consent` back gives the form data again: the payload drops
      that one field and keeps every other. */
  lemma {:induction false} PayloadDropsOnlyConsent(d: FormData, c: bool)
    ensures var p := Payload(d);
            FormData(p.name, p.email, p.phone, p.inquiryType, p.message, d.consent) == d
    ensures Payload(d.(consent := c)) == Payload(d)
  {
  }

  /** The request body `apiRequest` sends: `JSON.stringify` leaves out the
      `undefined` fields. */
  function PayloadJson(p: InquiryData): (j: Json)
    ensures j.JObject?
    ensures Member(j, "name") == Some(JString(p.name)) && Member(j, "email") == Some(JString(p.email))
    ensures Member(j, "consent").None?
    ensures p.phone.None? <==> Member(j, "phone").None?
    ensures p.phone.Some? ==> Member(j, "phone") == Some(JString(p.phone.value))
    ensures p.inquiryType.None? <==> Member(j, "inquiryType").None?
    ensures p.inquiryType.Some? ==> Member(j, "inquiryType") == Some(JString(p.inquiryType.value))
    ensures p.message.None? <==> Member(j, "message").None?
    ensures p.message.Some? ==> Member(j, "message") == Some(JString(p.message.value))
    ensures j.fields.Keys == {"name", "email"}
                             + (if p.phone.Some? then {"phone"} else {})
                             + (if p.inquiryType.Some? then {"inquiryType"} else {})
                             + (if p.message.Some? then {"message"} else {})
  {
    var fields := map["name" := JString(p.name), "email" := JString(p.email)];
    var fields := if p.phone.Some? then fields["phone" := JString(p.phone.value)] else fields;
    var fields := if p.inquiryType.Some? then fields["inquiryType" := JString(p.inquiryType.value)] else fields;
    var fields := if p.message.Some? then fields["message" := JString(p.message.value)] else fields;
    JObject(fields)
  }

  /** An optional form field as the server's schema reads it. */
  function Optional(v: Option<string>): (m: Maybe<string>)
    ensures m.Defined? <==> v.Some?
    ensures v.None? ==> m.Undefined?
  {
    if v.Some? then Defined(v.value) else Undefined
  }

  /** Every payload the form can post is accepted by the server's
      `insertInquirySchema` with the same field values, whether or not
      the form itself was valid: the server does not check the name's
      length, the email's format or the consent. */
  lemma {:induction false} ServerAcceptsEveryPayload(d: FormData)
    ensures ParseInsertInquiry(PayloadJson(Payload(d)))
         == Ok(InsertInquiry(d.name, d.email, Optional(d.phone), Optional(d.inquiryType), Optional(d.message)))
  {
    var m := PayloadJson(Payload(d)).fields;
    assert RequiredText(m, "name") == Some(d.name);
    assert RequiredText(m, "email") == Some(d.email);
    assert NullableText(m, "phone") == Some(Optional(d.phone));
    assert NullableText(m, "inquiryType") == Some(Optional(d.inquiryType));
    assert NullableText(m, "message") == Some(Optional(d.message));
  }

  /** `onSuccess` calls `form.reset()`; `onError` leaves the values alone. */
  function AfterSubmit(d: FormData, succeeded: bool): (r: FormData)
    ensures succeeded ==> r == Defaults()
    ensures !succeeded ==> r == d
  {
    if succeeded then Defaults() else d
  }

  /** After a successful submission the form cannot be sent again without
      the user re-entering a name and ticking consent. */
  lemma {:induction false} ResetFormIsInvalid(d: FormData, isEmail: string -> bool)
    ensures !FormValid(AfterSubmit(d, true), isEmail)
    ensures FormValid(AfterSubmit(d, false), isEmail) == FormValid(d, isEmail)
  {
    FormValidIff(Defaults(), isEmail);
  }
}
