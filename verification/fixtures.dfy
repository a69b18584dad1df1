/** The sample records `initializeSampleData` stores at construction:
    three testimonials, six services and three events, all active. Each
    fixture object gives every optional field, so it is written here as the
    insert payload that carries those values. Event dates are
    `new Date("YYYY-MM-DD")`, midnight UTC, in milliseconds.
 */
module Fixtures {
  import opened Wrappers
  import opened Schema

  const SampleTestimonials: seq<InsertTestimonial> := [
    InsertTestimonial(
      "Eleanor J.",
      Defined("Resident since 2021"),
      "Moving to Devine was the best decision. The staff treats me like family, and I've made wonderful friends. The activities keep me engaged and I feel healthier than I have in years.",
      Defined("https://images.unsplash.com/photo-1566616213894-2d4e1baee5d8?ixlib=rb-4.0.3&ixid=MnwxMjA3fDB8MHxwaG90by1wYWdlfHx8fGVufDB8fHx8&auto=format&fit=crop&w=200&q=80"),
      Defined(5),
      Defined(true)),
    InsertTestimonial(
      "Susan M.",
      Defined("Daughter of Resident"),
      "The peace of mind we've gained knowing Dad is in such good hands is priceless. The staff communicates with us regularly, and his care plan is exactly what he needs. We couldn't be happier with our choice.",
      Defined("https://images.unsplash.com/photo-1508214751196-bcfd4ca60f91?ixlib=rb-4.0.3&ixid=MnwxMjA3fDB8MHxwaG90by1wYWdlfHx8fGVufDB8fHx8&auto=format&fit=crop&w=200&q=80"),
      Defined(5),
      Defined(true)),
    InsertTestimonial(
      "Robert T.",
      Defined("Resident since 2020"),
      "After my wife passed, I was hesitant about moving into a community. Now I can't imagine being anywhere else. The care is exceptional, and the dining is superb. I feel like I'm in a luxury resort with healthcare.",
      Defined("https://images.unsplash.com/photo-1553867745-6e038d085e86?ixlib=rb-4.0.3&ixid=MnwxMjA3fDB8MHxwaG90by1wYWdlfHx8fGVufDB8fHx8&auto=format&fit=crop&w=200&q=80"),
      Defined(5),
      Defined(true))
  ]

  const SampleServices: seq<InsertService> := [
    InsertService(
      "Assisted Living",
      "Independent lifestyle with personalized assistance for daily activities in a supportive community.",
      Defined("https://images.unsplash.com/photo-1576091160550-2173dba999ef?ixlib=rb-4.0.3&ixid=MnwxMjA3fDB8MHxwaG90by1wYWdlfHx8fGVufDB8fHx8&auto=format&fit=crop&w=700&q=80"),
      "assisted-living",
      Defined(["Medication management", "Bathing and dressing assistance", "Mobility support"]),
      Defined(true)),
    InsertService(
      "Memory Care",
      "Specialized care for those with Alzheimer's and dementia in a secure, engaging environment.",
      Defined("https://images.unsplash.com/photo-1559839734-2b71ea197ec2?ixlib=rb-4.0.3&ixid=MnwxMjA3fDB8MHxwaG90by1wYWdlfHx8fGVufDB8fHx8&auto=format&fit=crop&w=700&q=80"),
      "memory-care",
      Defined(["24/7 specialized supervision", "Cognitive stimulation activities", "Secure living environment"]),
      Defined(true)),
    InsertService(
      "Skilled Nursing",
      "24-hour medical care from licensed nurses and therapists for complex health needs.",
      Defined("https://images.unsplash.com/photo-1607962837359-5e7e89f86776?ixlib=rb-4.0.3&ixid=MnwxMjA3fDB8MHxwaG90by1wYWdlfHx8fGVufDB8fHx8&auto=format&fit=crop&w=700&q=80"),
      "skilled-nursing",
      Defined(["Post-surgery recovery", "Chronic condition management", "Wound care"]),
      Defined(true)),
    InsertService(
      "Rehabilitation",
      "Comprehensive therapy services to recover function and independence after illness or surgery.",
      Defined("https://images.unsplash.com/photo-1581056771107-24247a734e15?ixlib=rb-4.0.3&ixid=MnwxMjA3fDB8MHxwaG90by1wYWdlfHx8fGVufDB8fHx8&auto=format&fit=crop&w=700&q=80"),
      "rehabilitation",
      Defined(["Physical therapy", "Occupational therapy", "Speech therapy"]),
      Defined(true)),
    InsertService(
      "Respite Care",
      "Short-term care providing a break for family caregivers while ensuring quality care continues.",
      Defined("https://images.unsplash.com/photo-1505576399279-565b52d4ac71?ixlib=rb-4.0.3&ixid=MnwxMjA3fDB8MHxwaG90by1wYWdlfHx8fGVufDB8fHx8&auto=format&fit=crop&w=700&q=80"),
      "respite-care",
      Defined(["Flexible stays (days to weeks)", "Full access to amenities", "Personalized care plan"]),
      Defined(true)),
    InsertService(
      "Wellness Programs",
      "Comprehensive health and wellness initiatives that promote active, fulfilling senior living.",
      Defined("https://images.unsplash.com/photo-1511688878353-3a2f5be94cd7?ixlib=rb-4.0.3&ixid=MnwxMjA3fDB8MHxwaG90by1wYWdlfHx8fGVufDB8fHx8&auto=format&fit=crop&w=700&q=80"),
      "wellness-programs",
      Defined(["Fitness classes", "Nutrition counseling", "Mindfulness practices"]),
      Defined(true))
  ]

  const SampleEvents: seq<InsertEvent> := [
    InsertEvent(
      "Live Jazz Night",
      "Join us for an evening of classic jazz performed by the Silver City Quartet in our main lounge.",
      Defined("https://images.unsplash.com/photo-1470225620780-dba8ba36b745?ixlib=rb-4.0.3&ixid=MnwxMjA3fDB8MHxwaG90by1wYWdlfHx8fGVufDB8fHx8&auto=format&fit=crop&w=700&q=80"),
      1684108800000,
      Defined("19:00"),
      Defined("21:00"),
      Defined(true)),
    InsertEvent(
      "Cooking Demo",
      "Our executive chef will demonstrate Mediterranean cuisine techniques with tasting samples for all attendees.",
      Defined("https://images.unsplash.com/photo-1585211969224-3e992986159d?ixlib=rb-4.0.3&ixid=MnwxMjA3fDB8MHxwaG90by1wYWdlfHx8fGVufDB8fHx8&auto=format&fit=crop&w=700&q=80"),
      1684368000000,
      Defined("14:00"),
      Defined("15:30"),
      Defined(true)),
    InsertEvent(
      "Garden Club",
      "Participate in our seasonal planting in the community garden followed by refreshments on the terrace.",
      Defined("https://images.unsplash.com/photo-1525026198548-4baa812f1183?ixlib=rb-4.0.3&ixid=MnwxMjA3fDB8MHxwaG90by1wYWdlfHx8fGVufDB8fHx8&auto=format&fit=crop&w=700&q=80"),
      1684540800000,
      Defined("10:00"),
      Defined("11:30"),
      Defined(true))
  ]

  /** Three testimonials, every one of them active. */
  lemma {:induction false} TestimonialsShape()
    ensures |SampleTestimonials| == 3
    ensures forall i :: 0 <= i < |SampleTestimonials| ==> SampleTestimonials[i].isActive == Defined(true)
  {
  }

  /** Six services, every one of them active. */
  lemma {:induction false} ServicesShape()
    ensures |SampleServices| == 6
    ensures forall i :: 0 <= i < |SampleServices| ==> SampleServices[i].isActive == Defined(true)
  {
  }

  /** Three events, every one of them active, in strictly ascending date order. */
  lemma {:induction false} EventsShape()
    ensures |SampleEvents| == 3
    ensures forall i :: 0 <= i < |SampleEvents| ==> SampleEvents[i].isActive == Defined(true)
    ensures forall i, j :: 0 <= i < j < |SampleEvents| ==> SampleEvents[i].date < SampleEvents[j].date
  {
  }
}
