/** The handlers `registerRoutes` installs, each a function from the request
    and the store to a status, a reply body, the next store and the emails
    whose delivery was attempted, in order.

    `sendEmail` is called by two handlers but the routes module never
    imports it, so as written every call throws a `ReferenceError` before
    any delivery is attempted. `Mailer` covers both situations: `Unbound`
    is the module as written, `Bound(deliver)` is the exported `sendEmail`
    of the mail module, whose `deliver` says whether the send succeeded.
 */
module Routes {
  import opened Wrappers
  import opened Json
  import opened Schema
  import Storage

  /** A JSON reply body. */
  datatype Reply =
    | Message(message: string)
    | Invalid(message: string, errors: seq<Issue>)
    | TestimonialList(testimonials: seq<Testimonial>)
    | ServiceList(services: seq<Service>)
    | ServiceRecord(service: Service)
    | EventList(events: seq<Event>)
    | InquiryRecord(inquiry: Inquiry)

  /** The part of an outgoing email the handlers decide: the recipient, as
      whatever JSON value the handler passes, and the subject. */
  datatype Email = Email(to: Json, subject: string)

  datatype Mailer = Unbound | Bound(deliver: Email -> bool)

  /** The mailer the routes module actually sees. */
  const AsWrittenMailer: Mailer := Unbound

  /** What one request produced. */
  datatype Outcome = Outcome(status: int, reply: Reply, store: Storage.Store, attempted: seq<Email>)

  const ConfirmationSubject: string := "Thank you for contacting Devine Senior Living"
  const AdminSubject: string := "New Contact Form Submission"
  const GuideSubject: string := "Your Senior Care Options Guide"
  const DefaultAdminAddress: string := "admin@devineseniorliving.com"

  /** `process.env.ADMIN_EMAIL || 'admin@devineseniorliving.com'`: an unset
      or empty variable falls back to the default address. */
  function AdminAddress(env: Option<string>): (r: string)
    ensures env.Some? && env.value != "" ==> r == env.value
    ensures env.None? || env.value == "" ==> r == DefaultAdminAddress
    ensures r != ""
  {
    if env.Some? && env.value != "" then env.value else DefaultAdminAddress
  }

  // ---------------------------------------------------------------------
  // Reads

  /** GET /api/testimonials. */
  function ListTestimonials(s: Storage.Store): (r: Outcome)
    ensures r.status == 200 && r.store == s && r.attempted == []
    ensures r.reply.TestimonialList?
    ensures forall t :: t in r.reply.testimonials <==> t in s.testimonials.rows && Active(t.isActive)
    ensures r.reply.testimonials == Storage.GetTestimonials(s)
  {
    Outcome(200, TestimonialList(Storage.GetTestimonials(s)), s, [])
  }

  /** GET /api/services. */
  function ListServices(s: Storage.Store): (r: Outcome)
    ensures r.status == 200 && r.store == s && r.attempted == []
    ensures r.reply.ServiceList?
    ensures forall v :: v in r.reply.services <==> v in s.services.rows && Active(v.isActive)
    ensures r.reply.services == Storage.GetServices(s)
  {
    Outcome(200, ServiceList(Storage.GetServices(s)), s, [])
  }

  /** GET /api/events. */
  function ListEvents(s: Storage.Store): (r: Outcome)
    ensures r.status == 200 && r.store == s && r.attempted == []
    ensures r.reply.EventList?
    ensures forall e :: e in r.reply.events <==> e in s.events.rows && Active(e.isActive)
    ensures r.reply.events == Storage.GetEvents(s)
  {
    Outcome(200, EventList(Storage.GetEvents(s)), s, [])
  }

  /** GET /api/services/:slug: 404 exactly when no active service has the
      slug, otherwise the service the lookup found. */
  function ShowService(s: Storage.Store, slug: string): (r: Outcome)
    ensures r.store == s && r.attempted == []
    ensures r.status == 404 <==> forall i :: 0 <= i < |s.services.rows| ==> !Storage.SlugMatch(s.services.rows[i], slug)
    ensures r.status == 404 ==> r.reply == Message("Service not found")
    ensures r.status != 404 ==> r.status == 200 && r.reply.ServiceRecord?
                                && r.reply.service in s.services.rows
                                && r.reply.service.slug == slug && Active(r.reply.service.isActive)
    ensures r.status == 200 ==> Some(r.reply.service) == Storage.GetServiceBySlug(s, slug)
  {
    match Storage.GetServiceBySlug(s, slug)
    case None => Outcome(404, Message("Service not found"), s, [])
    case Some(v) => Outcome(200, ServiceRecord(v), s, [])
  }

  // ---------------------------------------------------------------------
  // POST /api/inquiries

  /** Validate, store, send the confirmation, then notify the admin. The
      inquiry is stored before any email is attempted, so a failing or
      missing mailer answers 500 with the inquiry already kept. */
  function SubmitInquiry(s: Storage.Store, body: Json, now: int, mailer: Mailer, adminEnv: Option<string>): (r: Outcome)
    ensures r.status == 400 <==> ParseInsertInquiry(body).Err?
    ensures r.status == 400 ==> r.store == s && r.attempted == []
                                && r.reply == Invalid("Invalid form data", ParseInsertInquiry(body).error)
    ensures ParseInsertInquiry(body).Ok? ==>
              r.store == Storage.CreateInquiry(s, ParseInsertInquiry(body).value, now).0
    ensures r.status == 201 ==> ParseInsertInquiry(body).Ok? && mailer.Bound?
                                && r.reply == InquiryRecord(Storage.CreateInquiry(s, ParseInsertInquiry(body).value, now).1)
    ensures r.status == 500 ==> r.reply == Message("Failed to submit inquiry")
    ensures r.status in {201, 400, 500}
    ensures mailer.Unbound? ==> r.attempted == [] && r.status != 201
    ensures ParseInsertInquiry(body).Ok? && mailer.Bound? ==>
              var confirmation := Email(JString(ParseInsertInquiry(body).value.email), ConfirmationSubject);
              r.attempted == [confirmation]
                             + (if mailer.deliver(confirmation) then [Email(JString(AdminAddress(adminEnv)), AdminSubject)] else [])
    ensures r.status == 201 <==>
              && ParseInsertInquiry(body).Ok? && mailer.Bound?
              && mailer.deliver(Email(JString(ParseInsertInquiry(body).value.email), ConfirmationSubject))
              && mailer.deliver(Email(JString(AdminAddress(adminEnv)), AdminSubject))
  {
    match ParseInsertInquiry(body)
    case Err(issues) => Outcome(400, Invalid("Invalid form data", issues), s, [])
    case Ok(ins) =>
      var (s', q) := Storage.CreateInquiry(s, ins, now);
      var failed := Message("Failed to submit inquiry");
      match mailer
      case Unbound => Outcome(500, failed, s', [])
      case Bound(deliver) =>
        var confirmation := Email(JString(ins.email), ConfirmationSubject);
        var notification := Email(JString(AdminAddress(adminEnv)), AdminSubject);
        if !deliver(confirmation) then Outcome(500, failed, s', [confirmation])
        else if !deliver(notification) then Outcome(500, failed, s', [confirmation, notification])
        else Outcome(201, InquiryRecord(q), s', [confirmation, notification])
  }

  /** Whatever the mailer does, a valid submission is stored under the next
      inquiry id, stamped with `now`, and found there afterwards. */
  lemma {:induction false} ValidInquiryIsKept(s: Storage.Store, body: Json, now: int, mailer: Mailer, adminEnv: Option<string>)
    requires Storage.Valid(s) && ParseInsertInquiry(body).Ok?
    ensures var r := SubmitInquiry(s, body, now, mailer, adminEnv);
            && Storage.Valid(r.store)
            && Storage.GetInquiry(r.store, s.inquiries.next).Some?
            && Storage.GetInquiry(r.store, s.inquiries.next).value.createdAt == Some(now)
            && Storage.GetInquiry(r.store, s.inquiries.next).value.email == ParseInsertInquiry(body).value.email
  {
    Storage.CreatesKeepValid(s);
    Storage.CreateThenGet(s, s.inquiries.next);
  }

  /** As written, with `sendEmail` unbound, no submission ever succeeds:
      a valid one is stored and still answered with 500. */
  lemma {:induction false} AsWrittenSubmissionNeverSucceeds(s: Storage.Store, body: Json, now: int, adminEnv: Option<string>)
    requires ParseInsertInquiry(body).Ok?
    ensures var r := SubmitInquiry(s, body, now, AsWrittenMailer, adminEnv);
            && r.status == 500 && r.attempted == []
            && |r.store.inquiries.rows| == |s.inquiries.rows| + 1
  {
  }

  /** With `sendEmail` imported and delivering, a valid submission answers
      201 with the stored record, after mailing the submitter and then the
      admin address. */
  lemma {:induction false} BoundSubmissionSucceeds(s: Storage.Store, body: Json, now: int, deliver: Email -> bool, adminEnv: Option<string>)
    requires ParseInsertInquiry(body).Ok?
    requires forall m :: deliver(m)
    ensures var r := SubmitInquiry(s, body, now, Bound(deliver), adminEnv);
            && r.status == 201
            && r.reply == InquiryRecord(Storage.CreateInquiry(s, ParseInsertInquiry(body).value, now).1)
            && r.attempted == [Email(JString(ParseInsertInquiry(body).value.email), ConfirmationSubject),
                               Email(JString(AdminAddress(adminEnv)), AdminSubject)]
  {
  }

  // ---------------------------------------------------------------------
  // POST /api/guide-download

  /** `const { email } = req.body`: destructuring a `null` body throws,
      which the handler's catch answers with 500. */
  function RequestGuide(s: Storage.Store, body: Json, mailer: Mailer): (r: Outcome)
    ensures r.store == s
    ensures body.JNull? ==> r.status == 500 && r.attempted == []
    ensures r.status == 400 <==> !body.JNull? && !TruthyMember(Member(body, "email"))
    ensures r.status == 400 ==> r.reply == Message("Email is required") && r.attempted == []
    ensures r.status == 200 <==>
              && TruthyMember(Member(body, "email")) && mailer.Bound?
              && mailer.deliver(Email(body.fields["email"], GuideSubject))
    ensures r.status == 200 ==> r.reply == Message("Guide sent successfully")
    ensures r.status == 500 ==> r.reply == Message("Failed to send guide")
    ensures |r.attempted| > 0 ==> TruthyMember(Member(body, "email")) && mailer.Bound?
                                  && r.attempted == [Email(body.fields["email"], GuideSubject)]
    ensures r.status in {200, 400, 500}
    ensures TruthyMember(Member(body, "email")) && mailer.Bound? ==>
              r.attempted == [Email(body.fields["email"], GuideSubject)]
  {
    var failed := Message("Failed to send guide");
    if body.JNull? then Outcome(500, failed, s, [])
    else
      var email := Member(body, "email");
      if !TruthyMember(email) then Outcome(400, Message("Email is required"), s, [])
      else
        var guide := Email(email.value, GuideSubject);
        match mailer
        case Unbound => Outcome(500, failed, s, [])
        case Bound(deliver) =>
          if deliver(guide) then Outcome(200, Message("Guide sent successfully"), s, [guide])
          else Outcome(500, failed, s, [guide])
  }

  /** As written, a guide request with an email is answered 500 without
      a send; with the mailer imported and delivering it is answered 200. */
  lemma {:induction false} GuideNeedsBoundMailer(s: Storage.Store, body: Json, deliver: Email -> bool)
    requires TruthyMember(Member(body, "email"))
    requires forall m :: deliver(m)
    ensures RequestGuide(s, body, AsWrittenMailer).status == 500
    ensures RequestGuide(s, body, Bound(deliver)).status == 200
  {
  }

  // ---------------------------------------------------------------------
  // Dispatch

  datatype Request =
    | GetTestimonials
    | GetServices
    | GetService(slug: string)
    | GetEvents
    | PostInquiry(body: Json)
    | PostGuide(body: Json)

  /** The environment a request sees: the clock, the mailer binding and
      `ADMIN_EMAIL`. */
  datatype Env = Env(now: int, mailer: Mailer, adminEmail: Option<string>)

  /** One request against the store. */
  function Handle(s: Storage.Store, req: Request, env: Env): (r: Outcome)
    ensures !req.PostInquiry? ==> r.store == s
    ensures req.PostInquiry? && ParseInsertInquiry(req.body).Err? ==> r.store == s
    ensures req.PostInquiry? && ParseInsertInquiry(req.body).Ok? ==>
              r.store == Storage.CreateInquiry(s, ParseInsertInquiry(req.body).value, env.now).0
    ensures !req.PostInquiry? && !req.PostGuide? ==> r.attempted == []
  {
    match req
    case GetTestimonials => ListTestimonials(s)
    case GetServices => ListServices(s)
    case GetService(slug) => ShowService(s, slug)
    case GetEvents => ListEvents(s)
    case PostInquiry(body) => SubmitInquiry(s, body, env.now, env.mailer, env.adminEmail)
    case PostGuide(body) => RequestGuide(s, body, env.mailer)
  }

  /** Only a submitted inquiry changes the store, and only by one
      `createInquiry`: every other table and every counter but the
      inquiries' stays as it was, and the invariant is kept. */
  lemma {:induction false} OnlyInquiriesChangeTheStore(s: Storage.Store, req: Request, env: Env)
    requires Storage.Valid(s)
    ensures var r := Handle(s, req, env);
            && Storage.Valid(r.store)
            && r.store.users == s.users && r.store.testimonials == s.testimonials
            && r.store.services == s.services && r.store.events == s.events
            && |r.store.inquiries.rows| <= |s.inquiries.rows| + 1
            && r.store.inquiries.rows[..|s.inquiries.rows|] == s.inquiries.rows
  {
    Storage.CreatesKeepValid(s);
  }
}
