/** The five tables and the insert payloads picked from them.

Nullable columns are `Option`s (`None` is `null`); optional fields of an
insert payload are `Maybe`s, because a payload can leave a field out or give
`null` explicitly. Timestamps are integer milliseconds since the epoch.
The unique constraints on `username` and `slug` belong to the table
definition only; nothing here enforces them.
 */
module Schema {
  import opened Wrappers
  import opened Json

  datatype User = User(
    id: int,
    username: string,
    password: string,
    email: Option<string>,
    fullName: Option<string>,
    role: Option<string>)

  datatype Testimonial = Testimonial(
    id: int,
    name: string,
    role: Option<string>,
    content: string,
    image: Option<string>,
    stars: Option<int>,
    isActive: Option<bool>)

  datatype Service = Service(
    id: int,
    title: string,
    description: string,
    image: Option<string>,
    slug: string,
    features: Option<seq<string>>,
    isActive: Option<bool>)

  datatype Event = Event(
    id: int,
    title: string,
    description: string,
    image: Option<string>,
    date: int,
    startTime: Option<string>,
    endTime: Option<string>,
    isActive: Option<bool>)

  datatype Inquiry = Inquiry(
    id: int,
    name: string,
    email: string,
    phone: Option<string>,
    inquiryType: Option<string>,
    message: Option<string>,
    createdAt: Option<int>)

  /** `insertUserSchema`: every column but `id`. */
  datatype InsertUser = InsertUser(
    username: string,
    password: string,
    email: Maybe<string>,
    fullName: Maybe<string>,
    role: Maybe<string>)

  /** `insertTestimonialSchema`: every column but `id`. */
  datatype InsertTestimonial = InsertTestimonial(
    name: string,
    role: Maybe<string>,
    content: string,
    image: Maybe<string>,
    stars: Maybe<int>,
    isActive: Maybe<bool>)

  /** `insertServiceSchema`: every column but `id`. */
  datatype InsertService = InsertService(
    title: string,
    description: string,
    image: Maybe<string>,
    slug: string,
    features: Maybe<seq<string>>,
    isActive: Maybe<bool>)

  /** `insertEventSchema`: every column but `id`. */
  datatype InsertEvent = InsertEvent(
    title: string,
    description: string,
    image: Maybe<string>,
    date: int,
    startTime: Maybe<string>,
    endTime: Maybe<string>,
    isActive: Maybe<bool>)

  /** `insertInquirySchema`: every column but `id` and `createdAt`. */
  datatype InsertInquiry = InsertInquiry(
    name: string,
    email: string,
    phone: Maybe<string>,
    inquiryType: Maybe<string>,
    message: Maybe<string>)

  /** Column defaults of the table definitions. */
  const DefaultRole: string := "user"
  const DefaultStars: int := 5
  const DefaultIsActive: bool := true

  /** The testimonial row a database insert would produce: the column
      defaults apply to omitted `stars` and `isActive`. */
  function TableTestimonial(ins: InsertTestimonial, id: int): (t: Testimonial)
    ensures ins.stars.Undefined? ==> t.stars == Some(DefaultStars)
    ensures ins.isActive.Undefined? ==> t.isActive == Some(DefaultIsActive)
  {
    Testimonial(id, ins.name, OrNull(ins.role), ins.content, OrNull(ins.image),
                ColumnDefault(ins.stars, DefaultStars), ColumnDefault(ins.isActive, DefaultIsActive))
  }

  /** The user row a database insert would produce: omitted `role` becomes "user". */
  function TableUser(ins: InsertUser, id: int): (u: User)
    ensures ins.role.Undefined? ==> u.role == Some(DefaultRole)
  {
    User(id, ins.username, ins.password, OrNull(ins.email), OrNull(ins.fullName),
         ColumnDefault(ins.role, DefaultRole))
  }

  /** Truthiness of a nullable boolean column: only `true` passes. */
  predicate Active(flag: Option<bool>) {
    flag == Some(true)
  }

  /** The field names `insertInquirySchema` picks, in its order. */
  const InquiryFields: seq<string> := ["name", "email", "phone", "inquiryType", "message"]

  /** Why a body fails `insertInquirySchema.parse`. */
  datatype Issue = NotAnObject | BadField(field: string)

  /** A `text().notNull()` column in an insert schema: a string is required. */
  function RequiredText(body: map<string, Json>, key: string): Option<string> {
    if key in body && body[key].JString? then Some(body[key].s) else None
  }

  /** A nullable `text()` column in an insert schema: it may be left out or
      `null`, and otherwise must be a string. */
  function NullableText(body: map<string, Json>, key: string): Option<Maybe<string>> {
    if key !in body then Some(Undefined)
    else if body[key].JNull? then Some(Null)
    else if body[key].JString? then Some(Defined(body[key].s))
    else None
  }

  /** The failing fields, in schema order. */
  function InquiryIssues(body: map<string, Json>): seq<Issue> {
    (if RequiredText(body, "name").None? then [BadField("name")] else [])
    + (if RequiredText(body, "email").None? then [BadField("email")] else [])
    + (if NullableText(body, "phone").None? then [BadField("phone")] else [])
    + (if NullableText(body, "inquiryType").None? then [BadField("inquiryType")] else [])
    + (if NullableText(body, "message").None? then [BadField("message")] else [])
  }

  /** `body[key]` is a string. */
  predicate StringMember(body: Json, key: string) {
    Member(body, key).Some? && Member(body, key).value.JString?
  }

  /** `body[key]` is `undefined`, `null` or a string. */
  predicate NullableMember(body: Json, key: string) {
    Member(body, key).None? || Member(body, key).value.JNull? || Member(body, key).value.JString?
  }

  /** How a nullable field of the parsed payload reflects the member it came
      from: left out, `null`, or that very string. */
  predicate ReadsMember(body: Json, key: string, v: Maybe<string>) {
    && (v.Undefined? <==> Member(body, key).None?)
    && (v.Null? <==> Member(body, key) == Some(JNull))
    && (v.Defined? ==> Member(body, key) == Some(JString(v.value)))
  }

  /** `insertInquirySchema.parse(body)`: the body must be an object whose
      `name` and `email` are strings and whose `phone`, `inquiryType` and
      `message` are absent, `null` or strings. Every other key is stripped. */
  function ParseInsertInquiry(body: Json): (r: Result<InsertInquiry, seq<Issue>>)
    ensures r.Ok? <==> && body.JObject?
                       && StringMember(body, "name") && StringMember(body, "email")
                       && NullableMember(body, "phone") && NullableMember(body, "inquiryType")
                       && NullableMember(body, "message")
    ensures r.Err? ==> |r.error| > 0
    ensures !body.JObject? ==> r.Err?
    ensures body.JObject? && ("name" !in body.fields || "email" !in body.fields) ==> r.Err?
    ensures r.Ok? ==> Member(body, "name") == Some(JString(r.value.name))
    ensures r.Ok? ==> Member(body, "email") == Some(JString(r.value.email))
    ensures r.Ok? ==> (r.value.phone.Undefined? <==> Member(body, "phone").None?)
    ensures r.Ok? && r.value.phone.Defined? ==> Member(body, "phone") == Some(JString(r.value.phone.value))
    ensures r.Ok? ==> ReadsMember(body, "phone", r.value.phone)
    ensures r.Ok? ==> ReadsMember(body, "inquiryType", r.value.inquiryType)
    ensures r.Ok? ==> ReadsMember(body, "message", r.value.message)
  {
    match body
    case JObject(m) =>
      var name, email := RequiredText(m, "name"), RequiredText(m, "email");
      var phone, kind, message := NullableText(m, "phone"), NullableText(m, "inquiryType"), NullableText(m, "message");
      if name.Some? && email.Some? && phone.Some? && kind.Some? && message.Some? then
        Ok(InsertInquiry(name.value, email.value, phone.value, kind.value, message.value))
      else
        Err(InquiryIssues(m))
    case _ => Err([NotAnObject])
  }

  /** Keys outside the schema are stripped: adding one never changes the parse,
      so a body cannot smuggle in an `id` or a `createdAt`. */
  lemma {:induction false} ParseIgnoresUnknownKeys(m: map<string, Json>, key: string, v: Json)
    requires key !in InquiryFields
    ensures ParseInsertInquiry(JObject(m[key := v])) == ParseInsertInquiry(JObject(m))
  {
    var m' := m[key := v];
    assert RequiredText(m', "name") == RequiredText(m, "name");
    assert RequiredText(m', "email") == RequiredText(m, "email");
    assert NullableText(m', "phone") == NullableText(m, "phone");
    assert NullableText(m', "inquiryType") == NullableText(m, "inquiryType");
    assert NullableText(m', "message") == NullableText(m, "message");
  }
}
