/** `MemStorage`: five id-keyed tables, each with its own counter, seeded
    with fixtures at construction. Every operation is a pure function of
    the store; creates return the new store together with the record.
 */
module Storage {
  import opened Wrappers
  import opened Schema
  import Seqs
  import Sorting
  import Table
  import Fixtures

  datatype Store = Store(
    users: Table.Table<User>,
    testimonials: Table.Table<Testimonial>,
    services: Table.Table<Service>,
    events: Table.Table<Event>,
    inquiries: Table.Table<Inquiry>)

  function UserId(u: User): int { u.id }
  function TestimonialId(t: Testimonial): int { t.id }
  function ServiceId(v: Service): int { v.id }
  function EventId(e: Event): int { e.id }
  function InquiryId(q: Inquiry): int { q.id }

  /** Every stored inquiry carries a creation time. */
  predicate Stamped(rows: seq<Inquiry>) {
    forall i :: 0 <= i < |rows| ==> rows[i].createdAt.Some?
  }

  /** The invariant of every store reachable from the constructor. */
  predicate Valid(s: Store) {
    && Table.Keyed(s.users, UserId)
    && Table.Keyed(s.testimonials, TestimonialId)
    && Table.Keyed(s.services, ServiceId)
    && Table.Keyed(s.events, EventId)
    && Table.Keyed(s.inquiries, InquiryId)
    && Stamped(s.inquiries.rows)
  }

  // ---------------------------------------------------------------------
  // Records as the creates build them: `{...insert, id, field: insert.field ?? null, ...}`

  function NewUser(ins: InsertUser, id: int): User {
    User(id, ins.username, ins.password, OrNull(ins.email), OrNull(ins.fullName), OrNull(ins.role))
  }

  function NewTestimonial(ins: InsertTestimonial, id: int): Testimonial {
    Testimonial(id, ins.name, OrNull(ins.role), ins.content, OrNull(ins.image),
                OrNull(ins.stars), OrNull(ins.isActive))
  }

  function NewService(ins: InsertService, id: int): Service {
    Service(id, ins.title, ins.description, OrNull(ins.image), ins.slug,
            OrNull(ins.features), OrNull(ins.isActive))
  }

  function NewEvent(ins: InsertEvent, id: int): Event {
    Event(id, ins.title, ins.description, OrNull(ins.image), ins.date,
          OrNull(ins.startTime), OrNull(ins.endTime), OrNull(ins.isActive))
  }

  /** `id` and `createdAt` are written after the spread, so they win over
      any same-named field of the payload. */
  function NewInquiry(ins: InsertInquiry, id: int, now: int): Inquiry {
    Inquiry(id, ins.name, ins.email, OrNull(ins.phone), OrNull(ins.inquiryType),
            OrNull(ins.message), Some(now))
  }

  // ---------------------------------------------------------------------
  // Construction

  /** A store with empty maps and every counter at 1. */
  function Empty(): Store {
    Store(Table.Empty(), Table.Empty(), Table.Empty(), Table.Empty(), Table.Empty())
  }

  /** A store whose testimonials, services and events are loaded, in
      order, through the counters of an empty store. */
  function Load(ts: seq<InsertTestimonial>, vs: seq<InsertService>, es: seq<InsertEvent>): Store {
    Store(
      Table.Empty(),
      Table.AddAll(Table.Empty(), ts, NewTestimonial),
      Table.AddAll(Table.Empty(), vs, NewService),
      Table.AddAll(Table.Empty(), es, NewEvent),
      Table.Empty())
  }

  /** `new MemStorage()`: the counters start at 1 and the sample data takes
      the first ids of testimonials, services and events. Its shape is
      `LoadShape` applied to the three sample lists, whose lengths and
      flags `Fixtures.TestimonialsShape`, `ServicesShape` and `EventsShape`
      give: the store is `Valid`, users and inquiries are empty with next id
      1, and the next ids of testimonials, services and events are 4, 7
      and 4. No single lemma states this, because every proof that names
      the sample lists together pays for expanding all of their text. */
  function Seed(): Store {
    Load(Fixtures.SampleTestimonials, Fixtures.SampleServices, Fixtures.SampleEvents)
  }

  /** Loading gives the i-th item id `i + 1` and leaves each counter one
      past the number of items loaded. */
  lemma {:induction false} LoadShape(ts: seq<InsertTestimonial>, vs: seq<InsertService>, es: seq<InsertEvent>)
    ensures Valid(Load(ts, vs, es))
    ensures Load(ts, vs, es).users.rows == [] && Load(ts, vs, es).inquiries.rows == []
    ensures Load(ts, vs, es).users.next == 1 && Load(ts, vs, es).inquiries.next == 1
    ensures Load(ts, vs, es).testimonials.next == |ts| + 1
    ensures Load(ts, vs, es).services.next == |vs| + 1
    ensures Load(ts, vs, es).events.next == |es| + 1
    ensures forall i :: 0 <= i < |ts| ==> Load(ts, vs, es).testimonials.rows[i] == NewTestimonial(ts[i], i + 1)
    ensures forall i :: 0 <= i < |vs| ==> Load(ts, vs, es).services.rows[i] == NewService(vs[i], i + 1)
    ensures forall i :: 0 <= i < |es| ==> Load(ts, vs, es).events.rows[i] == NewEvent(es[i], i + 1)
  {
    Table.AddAllFromEmpty(ts, NewTestimonial, TestimonialId);
    Table.AddAllFromEmpty(vs, NewService, ServiceId);
    Table.AddAllFromEmpty(es, NewEvent, EventId);
  }

  // ---------------------------------------------------------------------
  // Creates

  /** `createUser`: the new user takes the counter's value as id and is
      appended; only the user table changes. A missing `role` is stored as
      `null`, not as the column default "user". */
  function CreateUser(s: Store, ins: InsertUser): (res: (Store, User))
    ensures res.1.id == s.users.next
    ensures res.0 == s.(users := Table.Add(s.users, res.1))
    ensures res.1.username == ins.username && res.1.password == ins.password
    ensures res.1.role.Some? <==> ins.role.Defined?
    ensures res.1.role.Some? ==> res.1.role.value == ins.role.value
    ensures res.1.email.Some? <==> ins.email.Defined?
    ensures res.1.email.Some? ==> res.1.email.value == ins.email.value
    ensures res.1.fullName.Some? <==> ins.fullName.Defined?
    ensures res.1.fullName.Some? ==> res.1.fullName.value == ins.fullName.value
  {
    var u := NewUser(ins, s.users.next);
    (s.(users := Table.Add(s.users, u)), u)
  }

  /** `createTestimonial`: fresh id, appended, only the testimonial table
      changes; a missing `stars` or `isActive` is stored as `null`, not as
      5 or `true`. */
  function CreateTestimonial(s: Store, ins: InsertTestimonial): (res: (Store, Testimonial))
    ensures res.1.id == s.testimonials.next
    ensures res.0 == s.(testimonials := Table.Add(s.testimonials, res.1))
    ensures res.1.name == ins.name && res.1.content == ins.content
    ensures res.1.stars.Some? <==> ins.stars.Defined?
    ensures res.1.stars.Some? ==> res.1.stars.value == ins.stars.value
    ensures res.1.isActive.Some? <==> ins.isActive.Defined?
    ensures res.1.isActive.Some? ==> res.1.isActive.value == ins.isActive.value
    ensures res.1.role.Some? <==> ins.role.Defined?
    ensures res.1.role.Some? ==> res.1.role.value == ins.role.value
    ensures res.1.image.Some? <==> ins.image.Defined?
    ensures res.1.image.Some? ==> res.1.image.value == ins.image.value
  {
    var t := NewTestimonial(ins, s.testimonials.next);
    (s.(testimonials := Table.Add(s.testimonials, t)), t)
  }

  /** `createService`: fresh id, appended, only the service table changes;
      a missing `isActive`, `image` or `features` is stored as `null`. */
  function CreateService(s: Store, ins: InsertService): (res: (Store, Service))
    ensures res.1.id == s.services.next
    ensures res.0 == s.(services := Table.Add(s.services, res.1))
    ensures res.1.title == ins.title && res.1.description == ins.description && res.1.slug == ins.slug
    ensures res.1.isActive.Some? <==> ins.isActive.Defined?
    ensures res.1.isActive.Some? ==> res.1.isActive.value == ins.isActive.value
    ensures res.1.image.Some? <==> ins.image.Defined?
    ensures res.1.image.Some? ==> res.1.image.value == ins.image.value
    ensures res.1.features.Some? <==> ins.features.Defined?
    ensures res.1.features.Some? ==> res.1.features.value == ins.features.value
  {
    var v := NewService(ins, s.services.next);
    (s.(services := Table.Add(s.services, v)), v)
  }

  /** `createEvent`: fresh id, appended, only the event table changes;
      a missing `isActive`, `image`, `startTime` or `endTime` is stored as `null`. */
  function CreateEvent(s: Store, ins: InsertEvent): (res: (Store, Event))
    ensures res.1.id == s.events.next
    ensures res.0 == s.(events := Table.Add(s.events, res.1))
    ensures res.1.title == ins.title && res.1.description == ins.description && res.1.date == ins.date
    ensures res.1.isActive.Some? <==> ins.isActive.Defined?
    ensures res.1.isActive.Some? ==> res.1.isActive.value == ins.isActive.value
    ensures res.1.image.Some? <==> ins.image.Defined?
    ensures res.1.image.Some? ==> res.1.image.value == ins.image.value
    ensures res.1.startTime.Some? <==> ins.startTime.Defined?
    ensures res.1.startTime.Some? ==> res.1.startTime.value == ins.startTime.value
    ensures res.1.endTime.Some? <==> ins.endTime.Defined?
    ensures res.1.endTime.Some? ==> res.1.endTime.value == ins.endTime.value
  {
    var e := NewEvent(ins, s.events.next);
    (s.(events := Table.Add(s.events, e)), e)
  }

  /** `createInquiry`: the id is always the counter's value and `createdAt`
      always the current time `now`, whatever the caller sent; only the
      inquiry table changes. */
  function CreateInquiry(s: Store, ins: InsertInquiry, now: int): (res: (Store, Inquiry))
    ensures res.1.id == s.inquiries.next && res.1.createdAt == Some(now)
    ensures res.0 == s.(inquiries := Table.Add(s.inquiries, res.1))
    ensures res.1.name == ins.name && res.1.email == ins.email
    ensures res.1.phone.Some? <==> ins.phone.Defined?
    ensures res.1.phone.Some? ==> res.1.phone.value == ins.phone.value
    ensures res.1.inquiryType.Some? <==> ins.inquiryType.Defined?
    ensures res.1.inquiryType.Some? ==> res.1.inquiryType.value == ins.inquiryType.value
    ensures res.1.message.Some? <==> ins.message.Defined?
    ensures res.1.message.Some? ==> res.1.message.value == ins.message.value
  {
    var q := NewInquiry(ins, s.inquiries.next, now);
    (s.(inquiries := Table.Add(s.inquiries, q)), q)
  }

  /** Every create keeps the store invariant and hands out an id no record
      of that kind already has: nothing is overwritten, no id is reused. */
  lemma {:induction false} CreatesKeepValid(s: Store)
    requires Valid(s)
    ensures forall ins :: Valid(CreateUser(s, ins).0)
    ensures forall ins :: Valid(CreateTestimonial(s, ins).0)
    ensures forall ins :: Valid(CreateService(s, ins).0)
    ensures forall ins :: Valid(CreateEvent(s, ins).0)
    ensures forall ins, now :: Valid(CreateInquiry(s, ins, now).0)
    ensures forall ins, now, i :: 0 <= i < |s.inquiries.rows| ==> s.inquiries.rows[i].id != CreateInquiry(s, ins, now).1.id
    ensures forall ins, i :: 0 <= i < |s.services.rows| ==> s.services.rows[i].id != CreateService(s, ins).1.id
  {
    forall ins { Table.AddKeepsKeyed(s.users, UserId, CreateUser(s, ins).1); }
    forall ins { Table.AddKeepsKeyed(s.testimonials, TestimonialId, CreateTestimonial(s, ins).1); }
    forall ins { Table.AddKeepsKeyed(s.services, ServiceId, CreateService(s, ins).1); }
    forall ins { Table.AddKeepsKeyed(s.events, EventId, CreateEvent(s, ins).1); }
    forall ins, now { Table.AddKeepsKeyed(s.inquiries, InquiryId, CreateInquiry(s, ins, now).1); }
  }

  // ---------------------------------------------------------------------
  // Lookups by id: `map.get(id)`, with no active filter

  function GetUser(s: Store, id: int): (r: Option<User>)
    ensures r.Some? ==> r.value in s.users.rows && r.value.id == id
    ensures r.None? <==> forall i :: 0 <= i < |s.users.rows| ==> s.users.rows[i].id != id
  {
    Table.Get(s.users, UserId, id)
  }

  function GetTestimonial(s: Store, id: int): (r: Option<Testimonial>)
    ensures r.Some? ==> r.value in s.testimonials.rows && r.value.id == id
    ensures r.None? <==> forall i :: 0 <= i < |s.testimonials.rows| ==> s.testimonials.rows[i].id != id
  {
    Table.Get(s.testimonials, TestimonialId, id)
  }

  function GetService(s: Store, id: int): (r: Option<Service>)
    ensures r.Some? ==> r.value in s.services.rows && r.value.id == id
    ensures r.None? <==> forall i :: 0 <= i < |s.services.rows| ==> s.services.rows[i].id != id
  {
    Table.Get(s.services, ServiceId, id)
  }

  function GetEvent(s: Store, id: int): (r: Option<Event>)
    ensures r.Some? ==> r.value in s.events.rows && r.value.id == id
    ensures r.None? <==> forall i :: 0 <= i < |s.events.rows| ==> s.events.rows[i].id != id
  {
    Table.Get(s.events, EventId, id)
  }

  function GetInquiry(s: Store, id: int): (r: Option<Inquiry>)
    ensures r.Some? ==> r.value in s.inquiries.rows && r.value.id == id
    ensures r.None? <==> forall i :: 0 <= i < |s.inquiries.rows| ==> s.inquiries.rows[i].id != id
  {
    Table.Get(s.inquiries, InquiryId, id)
  }

  /** A created record is found under its id straight away, active or not,
      and every other id finds what it found before. */
  lemma {:induction false} CreateThenGet(s: Store, key: int)
    requires Valid(s)
    ensures forall ins :: (GetUser(CreateUser(s, ins).0, key)
         == if key == s.users.next then Some(CreateUser(s, ins).1) else GetUser(s, key))
    ensures forall ins :: (GetTestimonial(CreateTestimonial(s, ins).0, key)
         == if key == s.testimonials.next then Some(CreateTestimonial(s, ins).1) else GetTestimonial(s, key))
    ensures forall ins :: (GetService(CreateService(s, ins).0, key)
         == if key == s.services.next then Some(CreateService(s, ins).1) else GetService(s, key))
    ensures forall ins :: (GetEvent(CreateEvent(s, ins).0, key)
         == if key == s.events.next then Some(CreateEvent(s, ins).1) else GetEvent(s, key))
    ensures forall ins, now :: (GetInquiry(CreateInquiry(s, ins, now).0, key)
         == if key == s.inquiries.next then Some(CreateInquiry(s, ins, now).1) else GetInquiry(s, key))
  {
    forall ins { Table.GetAfterAdd(s.users, UserId, CreateUser(s, ins).1, key); }
    forall ins { Table.GetAfterAdd(s.testimonials, TestimonialId, CreateTestimonial(s, ins).1, key); }
    forall ins { Table.GetAfterAdd(s.services, ServiceId, CreateService(s, ins).1, key); }
    forall ins { Table.GetAfterAdd(s.events, EventId, CreateEvent(s, ins).1, key); }
    forall ins, now { Table.GetAfterAdd(s.inquiries, InquiryId, CreateInquiry(s, ins, now).1, key); }
  }

  // ---------------------------------------------------------------------
  // Lookups by key: `Array.from(map.values()).find(...)`

  /** `getUserByUsername`: the first user, in insertion order, whose
      username is exactly `username`; no case folding. */
  function GetUserByUsername(s: Store, username: string): (r: Option<User>)
    ensures r.None? <==> forall i :: 0 <= i < |s.users.rows| ==> s.users.rows[i].username != username
    ensures r.Some? ==> exists i :: 0 <= i < |s.users.rows| && s.users.rows[i] == r.value
                          && r.value.username == username
                          && forall j :: 0 <= j < i ==> s.users.rows[j].username != username
  {
    var found := Seqs.Find(s.users.rows, (u: User) => u.username == username);
    found
  }

  /** A service the public slug lookup may return. */
  predicate SlugMatch(v: Service, slug: string) {
    v.slug == slug && Active(v.isActive)
  }

  /** `getServiceBySlug`: the first service, in insertion order, whose slug
      is exactly `slug` and which is active. */
  function GetServiceBySlug(s: Store, slug: string): (r: Option<Service>)
    ensures r.None? <==> forall i :: 0 <= i < |s.services.rows| ==> !SlugMatch(s.services.rows[i], slug)
    ensures r.Some? ==> exists i :: 0 <= i < |s.services.rows| && s.services.rows[i] == r.value
                          && SlugMatch(r.value, slug)
                          && forall j :: 0 <= j < i ==> !SlugMatch(s.services.rows[j], slug)
  {
    Seqs.Find(s.services.rows, (v: Service) => SlugMatch(v, slug))
  }

  // ---------------------------------------------------------------------
  // Listings

  predicate ActiveTestimonial(t: Testimonial) { Active(t.isActive) }
  predicate ActiveService(v: Service) { Active(v.isActive) }
  predicate ActiveEvent(e: Event) { Active(e.isActive) }
  function EventDate(e: Event): int { e.date }

  /** `getTestimonials`: exactly the testimonials whose `isActive` is true,
      in ascending id order. */
  function GetTestimonials(s: Store): (r: seq<Testimonial>)
    ensures multiset(r) == multiset(Seqs.Filter(s.testimonials.rows, ActiveTestimonial))
    ensures forall t :: t in r <==> t in s.testimonials.rows && Active(t.isActive)
    ensures Sorting.Sorted(r, TestimonialId)
  {
    var r := Sorting.SortBy(Seqs.Filter(s.testimonials.rows, ActiveTestimonial), TestimonialId);
    assert forall t :: t in r <==> t in multiset(r);
    r
  }

  /** `getServices`: exactly the active services, in ascending id order. */
  function GetServices(s: Store): (r: seq<Service>)
    ensures multiset(r) == multiset(Seqs.Filter(s.services.rows, ActiveService))
    ensures forall v :: v in r <==> v in s.services.rows && Active(v.isActive)
    ensures Sorting.Sorted(r, ServiceId)
  {
    var r := Sorting.SortBy(Seqs.Filter(s.services.rows, ActiveService), ServiceId);
    assert forall v :: v in r <==> v in multiset(r);
    r
  }

  /** `getEvents`: exactly the active events, in ascending date order. */
  function GetEvents(s: Store): (r: seq<Event>)
    ensures multiset(r) == multiset(Seqs.Filter(s.events.rows, ActiveEvent))
    ensures forall e :: e in r <==> e in s.events.rows && Active(e.isActive)
    ensures Sorting.Sorted(r, EventDate)
  {
    var r := Sorting.SortBy(Seqs.Filter(s.events.rows, ActiveEvent), EventDate);
    assert forall e :: e in r <==> e in multiset(r);
    r
  }

  /** The comparator `getInquiries` passes to `sort`: newest first when
      both rows carry a creation time, otherwise by descending id. */
  function InquiryCompare(a: Inquiry, b: Inquiry): int {
    if a.createdAt.Some? && b.createdAt.Some? then b.createdAt.value - a.createdAt.value
    else b.id - a.id
  }

  /** The sort key of a stamped inquiry: newer means smaller. */
  function NewestFirst(q: Inquiry): int {
    -q.createdAt.GetOr(0)
  }

  /** On stamped inquiries the comparator is the difference of the keys,
      so sorting by `NewestFirst` is what `sort` does with it. */
  lemma {:induction false} InquiryCompareIsKeyOrder(a: Inquiry, b: Inquiry)
    requires a.createdAt.Some? && b.createdAt.Some?
    ensures InquiryCompare(a, b) == NewestFirst(a) - NewestFirst(b)
    ensures InquiryCompare(a, b) < 0 <==> a.createdAt.value > b.createdAt.value
  {
  }

  /** `getInquiries`: every inquiry, newest first. Equal times compare
      equal, and there is no tie-break by id. The comparator's id fallback
      only concerns rows without a creation time, which `createInquiry`
      never stores, so this is stated for stamped rows. */
  function GetInquiries(s: Store): (r: seq<Inquiry>)
    requires Stamped(s.inquiries.rows)
    ensures multiset(r) == multiset(s.inquiries.rows)
  {
    Sorting.SortBy(s.inquiries.rows, NewestFirst)
  }

  /** The listing holds every stored inquiry, each as often as stored, and
      never lists an older one before a newer one. */
  lemma {:induction false} InquiriesNewestFirst(s: Store)
    requires Stamped(s.inquiries.rows)
    ensures multiset(GetInquiries(s)) == multiset(s.inquiries.rows)
    ensures forall i, j :: 0 <= i < j < |GetInquiries(s)| ==>
              GetInquiries(s)[i].createdAt.GetOr(0) >= GetInquiries(s)[j].createdAt.GetOr(0)
  {
    var r := GetInquiries(s);
    assert Sorting.Sorted(r, NewestFirst);
    forall i, j | 0 <= i < j < |r|
      ensures r[i].createdAt.GetOr(0) >= r[j].createdAt.GetOr(0)
    {
      assert NewestFirst(r[i]) <= NewestFirst(r[j]);
    }
  }

  // ---------------------------------------------------------------------
  // Properties of the listings

  /** Ids only grow along a table, so the sort by id in `getTestimonials`
      and `getServices` leaves the filtered rows in insertion order. */
  lemma {:induction false} ListingsInInsertionOrder(s: Store)
    requires Valid(s)
    ensures GetTestimonials(s) == Seqs.Filter(s.testimonials.rows, ActiveTestimonial)
    ensures GetServices(s) == Seqs.Filter(s.services.rows, ActiveService)
  {
    Seqs.FilterAscending(s.testimonials.rows, ActiveTestimonial, TestimonialId);
    Sorting.SortSortedUnchanged(Seqs.Filter(s.testimonials.rows, ActiveTestimonial), TestimonialId);
    Seqs.FilterAscending(s.services.rows, ActiveService, ServiceId);
    Sorting.SortSortedUnchanged(Seqs.Filter(s.services.rows, ActiveService), ServiceId);
  }

  /** Events on the same date are listed in insertion order. */
  lemma {:induction false} EventTiesKeepInsertionOrder(s: Store, date: int)
    ensures Sorting.SameKey(GetEvents(s), EventDate, date)
         == Sorting.SameKey(Seqs.Filter(s.events.rows, ActiveEvent), EventDate, date)
  {
    Sorting.SortStable(Seqs.Filter(s.events.rows, ActiveEvent), EventDate, date);
  }

  /** Inquiries created at the same time are listed in insertion order,
      that is oldest id first: for every sort key `k` (the inquiries
      created at time `-k`), the listing keeps their stored order. */
  lemma {:induction false} InquiryTiesKeepInsertionOrder(s: Store, k: int)
    requires Stamped(s.inquiries.rows)
    ensures Sorting.SameKey(GetInquiries(s), NewestFirst, k)
         == Sorting.SameKey(s.inquiries.rows, NewestFirst, k)
  {
    Sorting.SortStable(s.inquiries.rows, NewestFirst, k);
  }

  /** A record created without `isActive` is stored with `null`, so the
      public listing leaves it out while the lookup by id still finds it. */
  lemma {:induction false} CreatedWithoutActiveIsHidden(s: Store, ins: InsertTestimonial)
    requires Valid(s) && ins.isActive.Undefined?
    ensures CreateTestimonial(s, ins).1 !in GetTestimonials(CreateTestimonial(s, ins).0)
    ensures GetTestimonial(CreateTestimonial(s, ins).0, s.testimonials.next) == Some(CreateTestimonial(s, ins).1)
  {
    CreateThenGet(s, s.testimonials.next);
  }

  /** Slugs are not checked for uniqueness: a second active service with
      the same slug is stored, and the slug lookup keeps returning the
      first one. */
  lemma {:induction false} DuplicateSlugKeepsFirst(s: Store, a: InsertService, b: InsertService)
    requires Valid(s) && a.slug == b.slug && a.isActive == Defined(true) && b.isActive == Defined(true)
    requires GetServiceBySlug(s, a.slug).None?
    ensures var (s1, va) := CreateService(s, a);
            var (s2, vb) := CreateService(s1, b);
            && Valid(s2) && va in s2.services.rows && vb in s2.services.rows && va != vb
            && GetServiceBySlug(s2, a.slug) == Some(va)
  {
    var (s1, va) := CreateService(s, a);
    var (s2, vb) := CreateService(s1, b);
    CreatesKeepValid(s);
    CreatesKeepValid(s1);
    var rows := s2.services.rows;
    assert rows == s.services.rows + [va, vb];
    assert rows[|s.services.rows|] == va;
    assert SlugMatch(va, a.slug);
    forall j | 0 <= j < |s.services.rows|
      ensures !SlugMatch(rows[j], a.slug)
    {
      assert rows[j] == s.services.rows[j];
    }
  }

  /** Usernames are not checked for uniqueness either: a second user with
      the same username is stored, and the lookup returns the first. */
  lemma {:induction false} DuplicateUsernameKeepsFirst(s: Store, a: InsertUser, b: InsertUser)
    requires Valid(s) && a.username == b.username
    requires GetUserByUsername(s, a.username).None?
    ensures var (s1, ua) := CreateUser(s, a);
            var (s2, ub) := CreateUser(s1, b);
            && Valid(s2) && ua in s2.users.rows && ub in s2.users.rows && ua != ub
            && GetUserByUsername(s2, a.username) == Some(ua)
  {
    var (s1, ua) := CreateUser(s, a);
    var (s2, ub) := CreateUser(s1, b);
    CreatesKeepValid(s);
    CreatesKeepValid(s1);
    var rows := s2.users.rows;
    assert rows == s.users.rows + [ua, ub];
    assert rows[|s.users.rows|] == ua;
    forall j | 0 <= j < |s.users.rows|
      ensures rows[j].username != a.username
    {
      assert rows[j] == s.users.rows[j];
    }
  }

  /** An inquiry created later than every stored one heads the listing. */
  lemma {:induction false} NewestInquiryListedFirst(s: Store, ins: InsertInquiry, now: int)
    requires Valid(s)
    requires forall i :: 0 <= i < |s.inquiries.rows| ==> s.inquiries.rows[i].createdAt.value < now
    ensures Stamped(CreateInquiry(s, ins, now).0.inquiries.rows)
    ensures GetInquiries(CreateInquiry(s, ins, now).0)[0] == CreateInquiry(s, ins, now).1
  {
    var q := CreateInquiry(s, ins, now).1;
    var prior := s.inquiries.rows;
    forall j | 0 <= j < |prior|
      ensures NewestFirst(q) < NewestFirst(prior[j])
    {
      assert NewestFirst(prior[j]) == -prior[j].createdAt.value;
    }
    Sorting.AppendLeastIsHead(prior, q, NewestFirst);
  }

  /** A new row whose sort key ties the smallest stored key does not head
      the sorted rows. */
  lemma {:induction false} TieDoesNotHead(prior: seq<Inquiry>, q: Inquiry, i: nat)
    requires i < |prior| && NewestFirst(prior[i]) == NewestFirst(q)
    requires forall j :: 0 <= j < |prior| ==> NewestFirst(q) <= NewestFirst(prior[j]) && prior[j] != q
    ensures |Sorting.SortBy(prior + [q], NewestFirst)| > 0 && Sorting.SortBy(prior + [q], NewestFirst)[0] != q
  {
    Sorting.AppendTieKeepsHead(prior, q, NewestFirst, NewestFirst(q), i);
    var h := Sorting.SortBy(prior + [q], NewestFirst)[0];
    var m :| 0 <= m < |prior| && prior[m] == h;
  }

  /** With no tie-break by id, an inquiry created in the same millisecond
      as a stored one is listed after it: the newest record is not first. */
  lemma {:induction false} TiedInquiryListedAfterOlder(s: Store, ins: InsertInquiry, now: int, i: nat)
    requires Valid(s)
    requires forall j :: 0 <= j < |s.inquiries.rows| ==> s.inquiries.rows[j].createdAt.value <= now
    requires i < |s.inquiries.rows| && s.inquiries.rows[i].createdAt == Some(now)
    ensures Stamped(CreateInquiry(s, ins, now).0.inquiries.rows)
    ensures GetInquiries(CreateInquiry(s, ins, now).0)[0] != CreateInquiry(s, ins, now).1
  {
    var (t, q) := CreateInquiry(s, ins, now);
    var prior := s.inquiries.rows;
    forall j | 0 <= j < |prior|
      ensures NewestFirst(q) <= NewestFirst(prior[j]) && prior[j] != q
    {
      assert NewestFirst(prior[j]) == -prior[j].createdAt.value;
      assert InquiryId(prior[j]) < s.inquiries.next;
    }
    TieDoesNotHead(prior, q, i);
  }

  /** Rows that are all active and already in key order are listed as stored. */
  lemma {:induction false} ListedAsStored<T(!new)>(rows: seq<T>, active: T -> bool, key: T -> int)
    requires forall j :: 0 <= j < |rows| ==> active(rows[j])
    requires Sorting.Sorted(rows, key)
    ensures Sorting.SortBy(Seqs.Filter(rows, active), key) == rows
  {
    Seqs.FilterAll(rows, active);
    Sorting.SortSortedUnchanged(rows, key);
  }

  /** When every loaded item is active and the events' dates strictly
      increase, the listings return the loaded rows as stored. The sample
      lists meet these conditions (`Fixtures.TestimonialsShape`,
      `Fixtures.ServicesShape`, `Fixtures.EventsShape`). */
  lemma {:induction false} LoadListings(ts: seq<InsertTestimonial>, vs: seq<InsertService>, es: seq<InsertEvent>)
    requires forall i :: 0 <= i < |ts| ==> ts[i].isActive == Defined(true)
    requires forall i :: 0 <= i < |vs| ==> vs[i].isActive == Defined(true)
    requires forall i :: 0 <= i < |es| ==> es[i].isActive == Defined(true)
    requires forall i, j :: 0 <= i < j < |es| ==> es[i].date < es[j].date
    ensures GetTestimonials(Load(ts, vs, es)) == Load(ts, vs, es).testimonials.rows
    ensures GetServices(Load(ts, vs, es)) == Load(ts, vs, es).services.rows
    ensures GetEvents(Load(ts, vs, es)) == Load(ts, vs, es).events.rows
  {
    var s := Load(ts, vs, es);
    assert GetTestimonials(s) == s.testimonials.rows by {
      Table.AddAllFromEmpty(ts, NewTestimonial, TestimonialId);
      ListedAsStored(s.testimonials.rows, ActiveTestimonial, TestimonialId);
    }
    assert GetServices(s) == s.services.rows by {
      Table.AddAllFromEmpty(vs, NewService, ServiceId);
      ListedAsStored(s.services.rows, ActiveService, ServiceId);
    }
    assert GetEvents(s) == s.events.rows by {
      Table.AddAllFromEmpty(es, NewEvent, EventId);
      var ev := s.events.rows;
      assert Sorting.Sorted(ev, EventDate) by {
        forall i, j | 0 <= i < j < |ev|
          ensures EventDate(ev[i]) <= EventDate(ev[j])
        {
          assert ev[i].date == es[i].date && ev[j].date == es[j].date;
        }
      }
      ListedAsStored(ev, ActiveEvent, EventDate);
    }
  }
}
