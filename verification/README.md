# Devine Senior Living site: a Dafny model of its data layer and helpers

This project models the logic of the Devine Senior Living marketing site that
is more than rendering:

- the in-memory content store `MemStorage`. It has five entity kinds (users,
  testimonials, services, events, inquiries). Each kind has an id-keyed map
  and its own counter. The store is seeded with sample data when it is built;
- the record shapes, nullability, column defaults and insert payloads of the
  shared schema, including a concrete model of `insertInquirySchema.parse`
  on JSON bodies;
- the six API handlers of `registerRoutes`. Each is a pure function from
  the request and the store to a status, a reply body, the next store and
  the emails it tried to send;
- the client helpers `formatTime`, `truncateText` and `getImageUrl`;
- the testimonial carousel's position logic;
- the server entry point's CORS origin list and callback, `/api` log line and
  error-handler fallback;
- the contact form's validity predicate, default values, posted payload and
  reset.

Everything is a pure function over immutable datatypes. A JavaScript `Map`
iterates in insertion order, so each table is a sequence of records in
insertion order plus its counter (`Table.Table`). The invariant `Table.Keyed`
says the counter is at least 1, every id lies below it, and ids strictly
increase along the sequence. `Array.prototype.sort` with a comparator of the
form `key(a) - key(b)` is stable, so it is modelled by a stable insertion
sort on an integer key (`Sorting.SortBy`). The model states that this sort
is a permutation, is sorted and is stable.

Modelling conventions:
- `null` is `Option.None`.
- An optional payload field is a `Maybe`: left out, explicit `null`, or a
  value.
- Dates are integer milliseconds since the epoch.
- Slide widths are hundredths of a percent.
- `new Date()` in `createInquiry` is a parameter `now`.
- `encodeURIComponent`, zod's email check and `JSON.stringify` are function
  parameters.
- Email delivery is a `Routes.Mailer`. It is either `Unbound` (what the routes
  module sees, because it never imports `sendEmail`) or `Bound(deliver)`,
  where `deliver` says whether a send succeeds.

Where the code and the documented intent differ, the model follows the code:
- Creates store `null` for omitted `stars`, `isActive` and `role`. The table
  defaults (5, true, "user") are not applied (`Wrappers.NullFillIgnoresDefault`,
  `Schema.TableTestimonial`).
- Inquiries with equal `createdAt` are not tie-broken by id. The stable sort
  keeps them in insertion order, oldest first
  (`Storage.TiedInquiryListedAfterOlder`).
- After an inquiry is stored, a failed or missing `sendEmail` makes the
  handler answer 500. The failure is not ignored.
- Unique `username` and `slug` are table constraints only. The store accepts
  duplicates.

## Model

| member | source | states |
|---|---|---|
| Wrappers.OrNull | server/storage.ts:83-85 | `x ?? null` is null exactly when the field is undefined or null, and otherwise keeps the value |
| Wrappers.ColumnDefault | shared/schema.ts:11 | a column with `.default(d)` stores d for an omitted field, null for an explicit null, and the value otherwise |
| Wrappers.NullFillIgnoresDefault | server/storage.ts:107-110 | the store's `?? null` fill and the column default differ exactly on omitted fields, where the store writes null instead of the default |
| Schema.TableTestimonial | shared/schema.ts:20-21 | a database insert would give omitted `stars` the value 5 and omitted `isActive` the value true |
| Schema.TableUser | shared/schema.ts:11 | a database insert would give an omitted `role` the value "user" |
| Schema.ParseInsertInquiry | shared/schema.ts:91-97 | a body parses exactly when it is an object with string `name` and `email` and each of `phone`, `inquiryType` and `message` is absent, null or a string; each parsed field is left out, null or the very string the body held; every failure carries at least one issue |
| Schema.ParseIgnoresUnknownKeys | shared/schema.ts:91-97 | keys outside name, email, phone, inquiryType and message (such as `id` or `createdAt`) never change the parse |
| Table.AddKeepsKeyed | server/storage.ts:79-87 | storing under the counter's value keeps ids unique and increasing, and no existing record had that id |
| Table.AddAll | server/storage.ts:230-233 | loading items through the counter gives the i-th item id `next + i` and keeps earlier rows |
| Table.GetAfterAdd | server/storage.ts:68-70 | after a store under the counter, `map.get` finds the new record under its id and everything else as before |
| Seqs.Find | server/storage.ts:72-76 | `find` returns the first row in insertion order that satisfies the predicate, or nothing when none does |
| Seqs.Filter | server/storage.ts:92-95 | `filter` keeps exactly the rows that satisfy the predicate, each at most as often as it occurs (the order is stated by `Seqs.FilterAppend`) |
| Seqs.FilterAppend | server/storage.ts:92-95 | filtering rows with one more row appended is filtering the rows and then that row, so `filter` keeps the input order |
| Sorting.SortBy | server/storage.ts:95 | the sort returns a permutation of its input with keys in ascending order |
| Sorting.SortStable | server/storage.ts:172-180 | rows with equal keys keep their input order |
| Sorting.SortSortedUnchanged | server/storage.ts:93-95 | sorting rows already in key order changes nothing |
| Sorting.AppendLeastIsHead | server/storage.ts:174-179 | a row appended with a key below every other row's key comes first in the sorted array |
| Sorting.AppendTieKeepsHead | server/storage.ts:174-179 | a row appended with a key that ties the smallest key does not come first: the head is the first earlier row of that key |
| Storage.Seed | server/storage.ts:57-61 | the constructor's store is the three sample lists loaded through fresh counters; its shape follows from `Storage.LoadShape` and the `Fixtures` lemmas |
| Storage.LoadShape | server/storage.ts:201-327 | loading the samples through fresh counters gives the i-th sample id i + 1 and leaves each counter one past the count |
| Storage.LoadListings | server/storage.ts:201-327 | when every loaded sample is active and the event dates increase, each listing returns the loaded rows exactly as stored |
| Fixtures.TestimonialsShape | server/storage.ts:203-234 | the three sample testimonials are all created active |
| Fixtures.ServicesShape | server/storage.ts:236-291 | the six sample services are all created active |
| Fixtures.EventsShape | server/storage.ts:293-327 | the three sample events are all created active, with strictly increasing dates |
| Storage.CreateUser | server/storage.ts:78-89 | the new user takes the counter's id; email, fullName and role are null exactly when omitted and otherwise the supplied value; only the user table changes |
| Storage.CreateTestimonial | server/storage.ts:102-114 | fresh id; stars, isActive, role and image are null exactly when omitted and otherwise the supplied value; only the testimonial table changes |
| Storage.CreateService | server/storage.ts:133-144 | fresh id; isActive, image and features are null exactly when omitted and otherwise the supplied value; only the service table changes |
| Storage.CreateEvent | server/storage.ts:157-169 | fresh id; isActive, image, startTime and endTime are null exactly when omitted and otherwise the supplied value; only the event table changes |
| Storage.CreateInquiry | server/storage.ts:186-198 | the id is the counter's value and `createdAt` is the current time; phone, inquiryType and message are null exactly when omitted and otherwise the supplied value |
| Storage.CreatesKeepValid | server/storage.ts:79 | every create keeps the store invariant, and its id differs from every stored id of its kind, so nothing is overwritten and no id is reused |
| Storage.GetUser | server/storage.ts:68-70 | lookup by id finds the user with that id, or nothing exactly when no user has it |
| Storage.GetTestimonial | server/storage.ts:98-100 | lookup by id, with no active filter |
| Storage.GetService | server/storage.ts:123-125 | lookup by id, with no active filter |
| Storage.GetEvent | server/storage.ts:153-155 | lookup by id, with no active filter |
| Storage.GetInquiry | server/storage.ts:182-184 | lookup by id |
| Storage.CreateThenGet | server/storage.ts:186-198 | a created record is found under its id at once, whether or not it is active, and other ids are unaffected |
| Storage.GetUserByUsername | server/storage.ts:72-76 | the first user in insertion order whose username is exactly equal, or nothing exactly when none is |
| Storage.GetServiceBySlug | server/storage.ts:127-131 | the first service in insertion order with an exactly equal slug that is active, or nothing exactly when none is |
| Storage.GetTestimonials | server/storage.ts:92-96 | exactly the testimonials whose `isActive` is true, in ascending id order |
| Storage.GetServices | server/storage.ts:117-121 | exactly the active services, in ascending id order |
| Storage.GetEvents | server/storage.ts:147-151 | exactly the active events, in ascending date order |
| Storage.InquiryCompareIsKeyOrder | server/storage.ts:174-179 | on two stamped inquiries the comparator is the difference of the newest-first keys |
| Storage.GetInquiries | server/storage.ts:172-180 | the listing holds every stored inquiry, each as often as stored |
| Storage.InquiriesNewestFirst | server/storage.ts:172-180 | the listing is a permutation of the stored inquiries, and `createdAt` never increases along it |
| Storage.ListingsInInsertionOrder | server/storage.ts:93-95 | with increasing ids, sorting by id leaves the active rows in insertion order |
| Storage.EventTiesKeepInsertionOrder | server/storage.ts:150 | events on the same date are listed in insertion order |
| Storage.InquiryTiesKeepInsertionOrder | server/storage.ts:174-179 | for each sort key k (created at time -k), the inquiries with that key are listed in insertion order |
| Storage.CreatedWithoutActiveIsHidden | server/storage.ts:94 | a testimonial created without `isActive` is stored as null, so it is missing from the listing but found by id |
| Storage.DuplicateSlugKeepsFirst | shared/schema.ts:29 | two active services with the same slug are both stored, and the slug lookup returns the first |
| Storage.DuplicateUsernameKeepsFirst | shared/schema.ts:7 | two users with the same username are both stored, and the username lookup returns the first |
| Storage.NewestInquiryListedFirst | server/storage.ts:172-180 | an inquiry created later than all stored ones heads the listing |
| Storage.TieDoesNotHead | server/storage.ts:174-179 | a new inquiry whose time ties the newest stored time is not at the head of the sorted list |
| Storage.TiedInquiryListedAfterOlder | server/storage.ts:174-179 | an inquiry created in the same millisecond as a stored one is not listed first, because ties are not broken by id |
| Routes.AdminAddress | server/routes.ts:66 | the admin notification goes to `ADMIN_EMAIL`, or to the default address when the variable is unset or empty |
| Routes.ListTestimonials | server/routes.ts:10-17 | 200 with the storage listing of testimonials, which holds exactly the active ones; the store is unchanged |
| Routes.ListServices | server/routes.ts:20-27 | 200 with the storage listing of services, which holds exactly the active ones; the store is unchanged |
| Routes.ListEvents | server/routes.ts:42-49 | 200 with the storage listing of events, which holds exactly the active ones in date order; the store is unchanged |
| Routes.ShowService | server/routes.ts:29-39 | 404 "Service not found" exactly when no active service has the slug; otherwise 200 with the first active service with that slug, as the slug lookup returns it |
| Routes.SubmitInquiry | server/routes.ts:52-82 | 400 "Invalid form data" exactly when validation fails, and then the store is untouched and no email is sent. A valid body is always stored. The answer is 201 with the created record exactly when both sends succeed, and 500 otherwise. With a bound mailer the confirmation is always attempted first, and the admin notification is attempted only after the confirmation was delivered |
| Routes.ValidInquiryIsKept | server/routes.ts:55-57 | whatever the mailer does, a valid submission is found afterwards under the next inquiry id, stamped with the current time |
| Routes.AsWrittenSubmissionNeverSucceeds | server/routes.ts:57 | with `sendEmail` unbound, a valid submission is stored yet always answered 500, and no email is attempted |
| Routes.BoundSubmissionSucceeds | server/routes.ts:57-72 | with a bound, delivering mailer, a valid submission is answered 201 after the confirmation and then the admin notification |
| Routes.RequestGuide | server/routes.ts:84-108 | a null body gives 500; a falsy `email` gives 400 "Email is required" with no send; otherwise 200 exactly when the send succeeds. The status is always 200, 400 or 500, and with a truthy `email` and a bound mailer exactly one guide email to that address is attempted |
| Routes.GuideNeedsBoundMailer | server/routes.ts:91 | a guide request with an email gets 500 as written and 200 with a bound, delivering mailer |
| Routes.Handle | server/routes.ts:10-108 | only POST /api/inquiries can change the store, and only by that one `createInquiry` |
| Routes.OnlyInquiriesChangeTheStore | server/routes.ts:10-108 | every request keeps the store invariant, leaves the other four tables unchanged and at most appends one inquiry |
| Utils.TwelveHour | client/src/lib/utils.ts:20 | the displayed hour lies in 1..12 and agrees with the hour modulo 12 |
| Utils.TwelveHourRecoversHour | client/src/lib/utils.ts:19-20 | for hours 0..23, the 12-hour form and the period give back the hour (0 is 12 AM, 12 is 12 PM) |
| Utils.FormatTime | client/src/lib/utils.ts:16-25 | without a ':' the input is returned unchanged; otherwise the result ends in " PM" exactly when the hours are at least 12, and " AM" otherwise (its shape is stated by `Utils.FormatTimeReadsBack`) |
| Utils.FormatTimeReadsBack | client/src/lib/utils.ts:18-21 | the display has the shape "h:mm P" (an hour without a leading zero, minutes padded with zeros to at least two digits) and reads back as the 12-hour form, the input's minutes and PM exactly when the hours are at least 12 |
| Utils.PaddedReadsBack | client/src/lib/utils.ts:21 | padding the minutes with '0' to two characters gives at least two digits, a leading zero only as filling, and the same value |
| Utils.TruncateText | client/src/lib/utils.ts:45-48 | text that fits is unchanged; longer text keeps its first `maxLength` characters, gains "..." and has length `maxLength + 3` |
| Utils.TruncateDefault | client/src/lib/utils.ts:45 | with the default limit 150 the result is at most 153 characters and keeps the first 150 |
| Utils.TruncateIdempotent | client/src/lib/utils.ts:45-48 | truncating twice with the same non-negative limit is truncating once |
| Utils.GetImageUrl | client/src/lib/utils.ts:50-54 | a null, undefined or empty path gives the fixed placeholder; a path starting with "http" is kept; anything else becomes the placeholder prefix plus the encoded path |
| Utils.GetImageUrlIdempotent | client/src/lib/utils.ts:50-54 | every result starts with "http", so passing a result in again returns it unchanged |
| Slider.SlideWidth | client/src/components/home/TestimonialSlider.tsx:53-61 | the width is 100% exactly below 768 pixels, 50% exactly from 768 to below 1024 and 33.33% exactly from 1024 |
| Slider.SlidesPerViewBands | client/src/components/home/TestimonialSlider.tsx:73 | floor(100 / width) is 1, 2 and 3 slides in the three width bands |
| Slider.MaxPosition | client/src/components/home/TestimonialSlider.tsx:73 | `maxPosition` is `max(0, count - slidesPerView)` |
| Slider.Initial | client/src/components/home/TestimonialSlider.tsx:43-45 | the first render has position 0, width 33.33% and `maxPosition` 0 |
| Slider.GoToPrev | client/src/components/home/TestimonialSlider.tsx:77-79 | one step back, never below 0 |
| Slider.GoToNext | client/src/components/home/TestimonialSlider.tsx:81-83 | one step forward below `maxPosition`; at or past it, the position becomes `maxPosition` |
| Slider.Recompute | client/src/components/home/TestimonialSlider.tsx:71-75 | the effect leaves the position, width and count alone and sets `maxPosition` to `max(0, count - slidesPerView)`, so the last page is still full |
| Slider.Resize | client/src/components/home/TestimonialSlider.tsx:52-75 | a resize sets the width band and recomputes `maxPosition` without moving the position |
| Slider.Loaded | client/src/components/home/TestimonialSlider.tsx:71-75 | a new testimonial list recomputes `maxPosition` from its length |
| Slider.StepKeepsInv | client/src/components/home/TestimonialSlider.tsx:77-83 | every click, resize or load keeps the position and `maxPosition` non-negative |
| Slider.RunKeepsInv | client/src/components/home/TestimonialSlider.tsx:43-83 | no sequence of actions from a valid state makes the position negative |
| Slider.ButtonsMatchTheirFlags | client/src/components/home/TestimonialSlider.tsx:117-125 | while the position is at most `maxPosition`: prev is disabled exactly when its click changes nothing (position 0) and next likewise (position at `maxPosition`); an enabled button moves by one |
| Slider.PrevButtonMatchesFlag | client/src/components/home/TestimonialSlider.tsx:116-117 | in every valid state, prev is disabled exactly when its click changes nothing, and an enabled prev steps back one |
| Slider.StrandedNextIsDisabled | client/src/components/home/TestimonialSlider.tsx:124-125 | past `maxPosition` the next button is disabled, although `goToNext` would still move the position back to `maxPosition` |
| Slider.ResizeCanStrandPosition | client/src/components/home/TestimonialSlider.tsx:71-83 | widening the window can leave the position past `maxPosition`; the next button is then disabled, though `goToNext` would pull the position back to `maxPosition` |
| Server.DevPort | server/index.ts:42-49 | every development port is 3000 or lies in 5000..5010 |
| Server.DevPortsCover | server/index.ts:42-49 | the twelve development ports are exactly 3000 and 5000 through 5010, each once |
| Server.AllowedOrigins | server/index.ts:36-50 | production lists only the site's domain; development adds the twelve localhost origins in push order |
| Server.BuildAllowedOrigins | server/index.ts:36-50 | the pushes and the 5002..5010 loop build exactly that list |
| Server.LocalOriginListed | server/index.ts:41-50 | a localhost origin is listed exactly in development and for ports 3000 and 5000..5010 |
| Server.CorsOrigin | server/index.ts:53-63 | the callback allows a missing or empty origin, any origin in development, and a listed origin otherwise; a denial carries the CORS message |
| Server.CorsByMode | server/index.ts:55-62 | development allows every origin; production allows a present origin exactly when it is the site's domain |
| Server.ClipLogLine | server/index.ts:138-140 | a line over 80 characters becomes its first 79 plus "…", for exactly 80; shorter lines are unchanged |
| Server.ClipLogLineIdempotent | server/index.ts:138-140 | clipping twice is clipping once |
| Server.LogLine | server/index.ts:130-144 | a line is logged exactly for paths starting with "/api"; it is at most 80 characters and is the full line or its clipped form |
| Server.ErrorResponse | server/index.ts:153-167 | the status is `err.status`, else `err.statusCode`, else 500; the message is `err.message`, else "Internal Server Error"; nothing is sent once headers are sent |
| Server.ErrorStatusPrecedence | server/index.ts:155 | a non-zero `status` decides the status, and `statusCode` then changes nothing |
| Server.CorsDenialIs500 | server/index.ts:58-61 | a production CORS denial reaches the error handler without a status and is answered 500 with the CORS message |
| Contact.Defaults | client/src/components/contact/ContactSection.tsx:39-46 | the defaults are empty strings and `consent` false |
| Contact.FormErrors | client/src/components/contact/ContactSection.tsx:21-30 | the schema reports a short name exactly when it has fewer than two characters, a bad email exactly when the email check fails and missing consent exactly when `consent` is false, each at most once; the optional fields never fail |
| Contact.FormValidIff | client/src/components/contact/ContactSection.tsx:21-30 | `Contact.FormValid` (no failed check) holds exactly when the name has at least two characters, the email passes and consent is ticked |
| Contact.DefaultsInvalid | client/src/components/contact/ContactSection.tsx:27-29 | the default values never pass validation |
| Contact.OptionalFieldsNeverReject | client/src/components/contact/ContactSection.tsx:21-30 | phone, inquiryType and message never decide validity; a short name or missing consent always fails |
| Contact.Payload | client/src/components/contact/ContactSection.tsx:50-53 | the posted data keeps every form field but `consent` |
| Contact.PayloadDropsOnlyConsent | client/src/components/contact/ContactSection.tsx:51 | adding `consent` back restores the form data, and `consent` never affects the payload |
| Contact.PayloadJson | client/src/components/contact/ContactSection.tsx:52 | the request body carries name and email as strings, never `consent`, and an optional field exactly when it is defined; its keys are exactly name, email and the defined optional fields |
| Contact.ServerAcceptsEveryPayload | client/src/components/contact/ContactSection.tsx:50-53 | every payload the form can post passes the server's inquiry schema with the same values, because the server does not recheck name length, email format or consent |
| Contact.AfterSubmit | client/src/components/contact/ContactSection.tsx:54-61 | success resets the form to its defaults; failure keeps the values |
| Contact.ResetFormIsInvalid | client/src/components/contact/ContactSection.tsx:60 | after a successful submission the form is invalid until it is filled in again |

## Left out

- React rendering, animation, layout and the carousel's `translateX` offset. They hold no logic that can be stated.
- Slider.ButtonsMatchTheirFlags: the next half is stated only while the position is at most `maxPosition`, because after a widening resize the next button is disabled even though `goToNext` would still move the slider (Slider.StrandedNextIsDisabled). The prev half holds in every valid state (Slider.PrevButtonMatchesFlag).
- Wall-clock time. `createInquiry`'s `new Date()` is the parameter `now`, and the request duration in the log line is a parameter.
- Promises and `async`. Every store method is synchronous here, since nothing runs concurrently.
- Email content and delivery. The mail module's SendGrid call is the `deliver` oracle of `Routes.Mailer`. The text and html bodies, the sender address and `GUIDE_PDF_URL` are not modelled; an `Email` records only the recipient and subject.
- Storage.InquiriesNewestFirst: stated only for inquiries that carry a `createdAt` (the requires of `Storage.GetInquiries`). `createInquiry` always stamps, and `Storage.Valid` records that. The comparator's fallback to descending id for unstamped rows is modelled exactly as `Storage.InquiryCompare`, but no sort over mixed rows is derived from it, because such a comparator need not be a consistent order.
- Storage.LoadShape: the construction is stated for any lists of samples loaded through fresh counters. The facts about the concrete sample lists are kept apart in `Fixtures.TestimonialsShape`, `Fixtures.ServicesShape` and `Fixtures.EventsShape`, so `Storage.Seed` is `Storage.Load` of those lists and its listings follow from `Storage.LoadListings`.
- Routes.ListTestimonials: the 500 branches of the four GET handlers are left out, because the in-memory store methods never throw.
- Routes.SubmitInquiry: the text of zod's `fromZodError` message is not modelled. The `errors` field carries the list of failing fields instead.
- Schema.ParseInsertInquiry: only the inquiry schema's shape checks (string, null, absent) are modelled. The other insert schemas appear as payload datatypes, because no route parses them.
- Utils.FormatTime: stated for inputs whose first two ':'-separated pieces are decimal digit strings of at most 15 digits (its requires). Other inputs give JavaScript `NaN`, signs, blanks or fractions, and those paths are left out. Longer digit strings are left out too, because `Number` rounds them to the nearest double above 2^53 and `toString` writes values from 1e21 in exponent form.
- Utils.TruncateText: `maxLength` is an integer. A fractional limit is not modelled. Lengths count Dafny characters (Unicode scalar values) where `length` and `slice` count UTF-16 code units, so text outside the Basic Multilingual Plane is measured and cut differently (JavaScript can split a surrogate pair).
- Contact.FormErrors: the name's two-character minimum counts Unicode scalar values, while zod counts UTF-16 code units; the two differ only for characters outside the Basic Multilingual Plane.
- Server.ClipLogLine: lengths count Dafny characters (Unicode scalar values), while JavaScript counts UTF-16 code units. The two differ only for characters outside the Basic Multilingual Plane.
- Server.LogLine: `JSON.stringify` is the parameter `stringify`, and the captured body is a `Json` value.
- `encodeURIComponent` in `getImageUrl` and zod's `.email()` check in the contact form are function parameters.
- Numbers in JSON bodies are integers. Fractional numbers are not modelled.
- `formatDate` (Intl formatting), `cn` (class merging) and `getScrollAnimation` are presentation only.
- Express, helmet, rate limiting, sessions, cookies, body parsing, static serving, the port-retry listen loop and the security headers in `server/index.ts`. All of this is framework wiring or I/O.
- `server/middleware/auth.ts` and `FamilyPortal.tsx`. The middleware's guards are not attached to any route, and the portal login is a timer stub.
- The client's copies of the sample data in `constants.ts`.

## Findings

| source | as written | input that shows it | evidently intended | confidence | as-written member | corrected member |
|---|---|---|---|---|---|---|
| server/routes.ts:1-6, 57, 65, 91 | `sendEmail` is called but never imported, so each call throws a ReferenceError. A valid inquiry is stored and then answered 500, and every guide request with an email is answered 500 | POST /api/inquiries with body `{"name":"A","email":"a@b.c"}`; POST /api/guide-download with `{"email":"a@b.c"}` | import `sendEmail` from the mail module; a valid inquiry is answered 201 and the guide request 200 when delivery succeeds | high (not executed) | Routes.AsWrittenSubmissionNeverSucceeds | Routes.BoundSubmissionSucceeds |
