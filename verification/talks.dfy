/**
 The talks section: the badge icon and gradient chosen from a talk's type,
 ignoring case, and whether a talk card links out to the talk.
 */
module Talks {
  import opened Options

  /** The badge icons a talk type can map to. */
  datatype Icon = Mic | BookOpen | Video

  /** A talk record of the static talk list (only the fields the badge and
      the link read). */
  datatype Talk = Talk(id: int, title: string, kind: string, link: Option<string>)

  /** The gradient classes of the badge. */
  const ConferenceGradient: string := "from-primary to-primary-glow"
  const WorkshopGradient: string := "from-accent-bright to-primary"
  const WebinarGradient: string := "from-accent-bright to-accent-bright"
  const DefaultGradient: string := "from-primary to-accent-bright"

  /** The three talk types the page tells apart, in lower case. */
  const KnownKinds: set<string> := {"conference", "workshop", "webinar"}

  predicate IsUpper(c: char) {
    'A' <= c <= 'Z'
  }

  /** Lower case of one character (ASCII letters only). */
  function LowerChar(c: char): (d: char)
    ensures !IsUpper(d)
    ensures IsUpper(c) ==> d as int == c as int + 32
    ensures !IsUpper(c) ==> d == c
  {
    if IsUpper(c) then (c as int + 32) as char else c
  }

  /** Lower case of a string, character by character. */
  function Lower(s: string): (r: string)
    ensures |r| == |s|
    ensures forall i :: 0 <= i < |s| ==> r[i] == LowerChar(s[i])
    ensures forall i :: 0 <= i < |r| ==> !IsUpper(r[i])
  {
    if s == [] then [] else [LowerChar(s[0])] + Lower(s[1..])
  }

  /** Lowering an already lowered string changes nothing. */
  lemma LowerIdempotent(s: string)
    ensures Lower(Lower(s)) == Lower(s)
  {
  }

  /** The badge icon of talk type `kind`: workshops get a book, webinars a
      video camera, conferences and every other type a microphone. */
  function TypeIcon(kind: string): (icon: Icon)
    ensures icon == BookOpen <==> Lower(kind) == "workshop"
    ensures icon == Video <==> Lower(kind) == "webinar"
    ensures icon == Mic <==> Lower(kind) !in {"workshop", "webinar"}
  {
    match Lower(kind)
    case "conference" => Mic
    case "workshop" => BookOpen
    case "webinar" => Video
    case _ => Mic
  }

  /** The badge gradient of talk type `kind`: one of four classes, a separate
      one for each known type and the default for every other type. */
  function TypeColor(kind: string): (g: string)
    ensures g in {ConferenceGradient, WorkshopGradient, WebinarGradient, DefaultGradient}
    ensures g == ConferenceGradient <==> Lower(kind) == "conference"
    ensures g == WorkshopGradient <==> Lower(kind) == "workshop"
    ensures g == WebinarGradient <==> Lower(kind) == "webinar"
    ensures g == DefaultGradient <==> Lower(kind) !in KnownKinds
  {
    match Lower(kind)
    case "conference" => ConferenceGradient
    case "workshop" => WorkshopGradient
    case "webinar" => WebinarGradient
    case _ => DefaultGradient
  }

  /** Classification ignores case: a type and its lower-case form, and any two
      types equal up to case, get the same icon and gradient. */
  lemma ClassificationIgnoresCase(a: string, b: string)
    requires Lower(a) == Lower(b)
    ensures TypeIcon(a) == TypeIcon(Lower(a)) == TypeIcon(b)
    ensures TypeColor(a) == TypeColor(Lower(a)) == TypeColor(b)
  {
    LowerIdempotent(a);
  }

  /** The gradient determines the icon. */
  lemma GradientDeterminesIcon(a: string, b: string)
    requires TypeColor(a) == TypeColor(b)
    ensures TypeIcon(a) == TypeIcon(b)
  {
  }

  /** The icon does not determine the gradient: a conference and an unknown
      type share the microphone and differ in colour. */
  lemma IconDoesNotDetermineGradient()
    ensures TypeIcon("conference") == TypeIcon("meetup") == Mic
    ensures TypeColor("conference") != TypeColor("meetup")
  {
  }

  /** A capitalised workshop is still a workshop. */
  lemma CapitalizedWorkshop()
    ensures TypeIcon("Workshop") == BookOpen
  {
  }

  /** A capitalised conference is still a conference. */
  lemma CapitalizedConference()
    ensures TypeColor("Conference") == ConferenceGradient
  {
  }

  /** A talk's card links out when its link is present, non-empty and not the
      placeholder `#`. */
  predicate ShowsLink(link: Option<string>) {
    link.Some? && link.value != "" && link.value != "#"
  }

  /** What a talk card shows from the talk's type and link. */
  datatype Card = Card(icon: Icon, gradient: string, href: Option<string>)

  /** The card of a talk: badge from the type, and the talk's own link when it
      is a real one, no link otherwise. */
  function TalkCard(t: Talk): (c: Card)
    ensures c.icon == TypeIcon(t.kind) && c.gradient == TypeColor(t.kind)
    ensures c.href.Some? ==> c.href == t.link && c.href.value !in {"", "#"}
    ensures c.href.None? <==> t.link.None? || t.link.value in {"", "#"}
  {
    Card(TypeIcon(t.kind), TypeColor(t.kind), if ShowsLink(t.link) then t.link else None)
  }
}
