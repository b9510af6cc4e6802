/**
 * The services grid and its pop-up (`ServicesSection` in src/App.jsx): the
 * selected service is `null` or one of the six entries of the services
 * array; the pop-up shows it, with a syllabus list when the entry has one.
 */
module Services {
  import opened Wrappers

  /**
   * One entry of the services array, reduced to its title and to whether it
   * defines a `syllabus` (a non-empty array, which is truthy; an entry
   * without one yields `undefined`, which is falsy).
   */
  datatype Service = Service(title: string, hasSyllabus: bool)

  /** The services array, in display order. */
  const Catalog: seq<Service> := [
    Service("Digital Marketing", true),
    Service("Artificial Intelligence", true),
    Service("Web Development", true),
    Service("Banking & Financial Training", true),
    Service("Career Counseling", false),
    Service("Placement Support", false)
  ]

  /** What the pop-up renders: nothing, or a service's title with or without the syllabus section. */
  datatype Modal = Hidden | Shown(title: string, syllabus: bool)

  /** The render of `{selectedService && (...)}` and `{selectedService.syllabus && (...)}`. */
  function ModalView(selected: Option<Service>): Modal {
    match selected
    case None => Hidden
    case Some(s) => Shown(s.title, s.hasSyllabus)
  }

  /** The first four services show a syllabus and the last two do not. */
  lemma SyllabusOnlyForCourses(k: nat)
    requires k < |Catalog|
    ensures ModalView(Some(Catalog[k])) == Shown(Catalog[k].title, k < 4)
  {
    assert Catalog[4].hasSyllabus == false && Catalog[5].hasSyllabus == false;
  }

  /** No service is listed twice, so the pop-up's title identifies the card that opened it. */
  lemma TitlesIdentifyServices(j: nat, k: nat)
    requires j < |Catalog| && k < |Catalog|
    ensures Catalog[j].title == Catalog[k].title <==> j == k
  {
    if j != k {
      assert Catalog[j].title[0] != Catalog[k].title[0];
    }
  }

  class ServicesSection {
    /** `selectedService`. */
    var selected: Option<Service>

    ghost predicate Valid()
      reads this
    {
      selected.Some? ==> selected.value in Catalog
    }

    /** `useState(null)`: no pop-up. */
    constructor ()
      ensures Valid() && selected == None
    {
      selected := None;
    }

    /** A card's "Learn more" button: `setSelectedService(service)`. */
    method Open(k: nat)
      requires k < |Catalog|
      modifies this
      ensures Valid()
      ensures selected == Some(Catalog[k])
      ensures ModalView(selected) == Shown(Catalog[k].title, k < 4)
    {
      selected := Some(Catalog[k]);
      SyllabusOnlyForCourses(k);
    }

    /** The backdrop, the close button and "Book Consultation": `setSelectedService(null)`. */
    method Close()
      modifies this
      ensures Valid()
      ensures selected == None
      ensures ModalView(selected) == Hidden
    {
      selected := None;
    }
  }
}
