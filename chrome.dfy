/** Page chrome (js/main.js:41-135, 320-359): the scroll handler with its
    thresholds and active-link scan, the mobile navigation and the privacy
    modal, both of which write the one `document.body.style.overflow`. */
module PageChrome {
  import opened Wrappers

  /** Scroll depth past which the header gets its "scrolled" look. */
  const HeaderThreshold: int := 50
  /** Scroll depth past which the back-to-top control is shown. */
  const BackToTopThreshold: int := 400
  /** Offset added to the scroll position before looking for the current section. */
  const SectionProbeOffset: int := 120

  /** A `section[id]` or `div[id]` element: its id and its `offsetTop` and `offsetHeight`. */
  datatype Section = Section(id: string, top: int, height: int)

  predicate Covers(s: Section, y: int) {
    s.top <= y < s.top + s.height
  }

  /** The index of the last section, in document order, whose range holds y. */
  function LastCovering(sections: seq<Section>, y: int): (r: Option<nat>)
    ensures r.Some? ==> r.value < |sections| && Covers(sections[r.value], y)
    ensures r.Some? ==> forall j :: r.value < j < |sections| ==> !Covers(sections[j], y)
    ensures r.None? ==> forall j :: 0 <= j < |sections| ==> !Covers(sections[j], y)
  {
    if sections == [] then None
    else if Covers(sections[|sections| - 1], y) then Some(|sections| - 1)
    else LastCovering(sections[..|sections| - 1], y)
  }

  /** The id of that section, or "" when none holds y. */
  function CurrentSection(sections: seq<Section>, y: int): string {
    match LastCovering(sections, y)
    case Some(i) => sections[i].id
    case None => ""
  }

  /** The scan of `updateActiveNavLink`: every section in turn, overwriting the
      current id whenever a section holds `scrollY + 120`. */
  method FindCurrentSection(sections: seq<Section>, scrollY: int) returns (current: string)
    ensures current == CurrentSection(sections, scrollY + SectionProbeOffset)
    ensures (exists j :: 0 <= j < |sections| && Covers(sections[j], scrollY + SectionProbeOffset))
            || current == ""
  {
    var y := scrollY + SectionProbeOffset;
    current := "";
    var i := 0;
    while i < |sections|
      invariant 0 <= i <= |sections|
      invariant current == CurrentSection(sections[..i], y)
    {
      assert sections[..i + 1][..i] == sections[..i];
      if y >= sections[i].top && y < sections[i].top + sections[i].height {
        current := sections[i].id;
      }
      i := i + 1;
    }
    assert sections[..i] == sections;
  }

  /** A link is marked active when it has a non-empty `href` equal to "#" + the current id. */
  predicate LinkActive(href: Option<string>, current: string) {
    href.Some? && href.value != "" && href.value == "#" + current
  }

  /** Every active link points at the current section, so links with distinct
      `href`s leave at most one of them active. */
  lemma {:induction false} ActiveLinksAgree(hrefs: seq<Option<string>>, current: string, i: nat, j: nat)
    requires i < |hrefs| && j < |hrefs|
    requires LinkActive(hrefs[i], current) && LinkActive(hrefs[j], current)
    ensures hrefs[i] == hrefs[j] == Some("#" + current)
  {
  }

  /** With no section under the probe the current id is "", so a link whose
      `href` is a bare "#" is the one that gets marked. */
  lemma BareHashMarkedWhenNoSection(sections: seq<Section>, scrollY: int)
    requires forall j :: 0 <= j < |sections| ==> !Covers(sections[j], scrollY + SectionProbeOffset)
    ensures CurrentSection(sections, scrollY + SectionProbeOffset) == ""
    ensures LinkActive(Some("#"), CurrentSection(sections, scrollY + SectionProbeOffset))
  {
    assert "#" + "" == "#";
  }

  class Chrome {
    /** The nav panel's "open" class. */
    var navOpen: bool
    /** The overlay's "active" class. */
    var overlayActive: bool
    /** The hamburger's "active" class. */
    var hamburgerActive: bool
    /** The hamburger's `aria-expanded` attribute. */
    var ariaExpanded: string
    /** `document.body.style.overflow`, shared by the navigation and the modal. */
    var bodyOverflow: string
    /** Whether the page has the privacy modal. */
    const hasModal: bool
    /** The modal's "is-open" class. */
    var modalOpen: bool
    const hasHeader: bool
    const hasBackToTop: bool
    var headerScrolled: bool
    var backToTopVisible: bool
    /** The `href` of every `.nav__link`, in document order. */
    const linkHrefs: seq<Option<string>>
    /** Whether each link carries the "active" class. */
    var linkActive: seq<bool>

    /** The navigation's four indicators move together, the body is locked
        only while something is open, and a missing modal is never open. */
    ghost predicate Valid()
      reads this
    {
      |linkActive| == |linkHrefs|
      && overlayActive == navOpen && hamburgerActive == navOpen
      && ariaExpanded == (if navOpen then "true" else "false")
      && (bodyOverflow == "" || bodyOverflow == "hidden")
      && (bodyOverflow == "hidden" ==> navOpen || modalOpen)
      && (!hasModal ==> !modalOpen)
    }

    constructor (hasModal: bool, hasHeader: bool, hasBackToTop: bool, linkHrefs: seq<Option<string>>)
      ensures Valid()
      ensures !navOpen && !modalOpen && bodyOverflow == ""
      ensures !headerScrolled && !backToTopVisible
      ensures this.hasModal == hasModal && this.hasHeader == hasHeader && this.hasBackToTop == hasBackToTop
      ensures this.linkHrefs == linkHrefs && linkActive == seq(|linkHrefs|, _ => false)
    {
      navOpen, overlayActive, hamburgerActive := false, false, false;
      ariaExpanded := "false";
      bodyOverflow := "";
      this.hasModal := hasModal;
      modalOpen := false;
      this.hasHeader, this.hasBackToTop := hasHeader, hasBackToTop;
      headerScrolled, backToTopVisible := false, false;
      this.linkHrefs := linkHrefs;
      linkActive := seq(|linkHrefs|, _ => false);
    }

    /** `openNav`: panel open, overlay and hamburger active, expanded, body locked. */
    method OpenNav()
      requires Valid()
      modifies this`navOpen, this`overlayActive, this`hamburgerActive, this`ariaExpanded, this`bodyOverflow
      ensures Valid()
      ensures navOpen && overlayActive && hamburgerActive && ariaExpanded == "true"
      ensures bodyOverflow == "hidden"
    {
      navOpen := true;
      overlayActive := true;
      hamburgerActive := true;
      ariaExpanded := "true";
      bodyOverflow := "hidden";
    }

    /** `closeNav`: exactly the reverse, and the body unlocked even when the modal is still open. */
    method CloseNav()
      requires Valid()
      modifies this`navOpen, this`overlayActive, this`hamburgerActive, this`ariaExpanded, this`bodyOverflow
      ensures Valid()
      ensures !navOpen && !overlayActive && !hamburgerActive && ariaExpanded == "false"
      ensures bodyOverflow == ""
    {
      navOpen := false;
      overlayActive := false;
      hamburgerActive := false;
      ariaExpanded := "false";
      bodyOverflow := "";
    }

    /** A hamburger click toggles the navigation. */
    method HamburgerClick()
      requires Valid()
      modifies this`navOpen, this`overlayActive, this`hamburgerActive, this`ariaExpanded, this`bodyOverflow
      ensures Valid()
      ensures navOpen == !old(navOpen)
      ensures bodyOverflow == if navOpen then "hidden" else ""
    {
      if navOpen {
        CloseNav();
      } else {
        OpenNav();
      }
    }

    /** A nav-link click closes the navigation only when it is open. */
    method NavLinkClick()
      requires Valid()
      modifies this`navOpen, this`overlayActive, this`hamburgerActive, this`ariaExpanded, this`bodyOverflow
      ensures Valid() && !navOpen
      ensures old(navOpen) ==> bodyOverflow == ""
      ensures !old(navOpen) ==> bodyOverflow == old(bodyOverflow) && ariaExpanded == old(ariaExpanded)
    {
      if navOpen {
        CloseNav();
      }
    }

    /** `openModal`: nothing without a modal; otherwise open it and lock the body. */
    method OpenModal()
      requires Valid()
      modifies this`modalOpen, this`bodyOverflow
      ensures Valid()
      ensures hasModal ==> modalOpen && bodyOverflow == "hidden"
      ensures !hasModal ==> modalOpen == old(modalOpen) && bodyOverflow == old(bodyOverflow)
    {
      if !hasModal {
        return;
      }
      modalOpen := true;
      bodyOverflow := "hidden";
    }

    /** `closeModal`: close it and unlock the body, even when the navigation is still open. */
    method CloseModal()
      requires Valid()
      modifies this`modalOpen, this`bodyOverflow
      ensures Valid()
      ensures hasModal ==> !modalOpen && bodyOverflow == ""
      ensures !hasModal ==> modalOpen == old(modalOpen) && bodyOverflow == old(bodyOverflow)
    {
      if !hasModal {
        return;
      }
      modalOpen := false;
      bodyOverflow := "";
    }

    /** A `keydown` on the document runs both listeners in the order they were
        added: Escape closes an open navigation, then an open modal. */
    method KeyDown(key: string)
      requires Valid()
      modifies this`navOpen, this`overlayActive, this`hamburgerActive, this`ariaExpanded, this`bodyOverflow, this`modalOpen
      ensures Valid()
      ensures key == "Escape" ==> !navOpen && !modalOpen
      ensures key == "Escape" && (old(navOpen) || old(modalOpen)) ==> bodyOverflow == ""
      ensures key == "Escape" && !old(navOpen) && !old(modalOpen) ==> bodyOverflow == old(bodyOverflow)
      ensures key != "Escape" ==> navOpen == old(navOpen) && modalOpen == old(modalOpen)
                                  && bodyOverflow == old(bodyOverflow) && ariaExpanded == old(ariaExpanded)
    {
      if key == "Escape" && navOpen {
        CloseNav();
      }
      if key == "Escape" && hasModal && modalOpen {
        CloseModal();
      }
    }

    /** `handleScroll`: the two thresholds, then the active-link update. */
    method HandleScroll(scrollY: int, sections: seq<Section>)
      requires Valid()
      modifies this`headerScrolled, this`backToTopVisible, this`linkActive
      ensures Valid()
      ensures headerScrolled == if hasHeader then scrollY > HeaderThreshold else old(headerScrolled)
      ensures backToTopVisible == if hasBackToTop then scrollY > BackToTopThreshold else old(backToTopVisible)
      ensures var current := CurrentSection(sections, scrollY + SectionProbeOffset);
        forall k :: 0 <= k < |linkHrefs| ==> linkActive[k] == LinkActive(linkHrefs[k], current)
    {
      if hasHeader {
        headerScrolled := scrollY > HeaderThreshold;
      }
      if hasBackToTop {
        backToTopVisible := scrollY > BackToTopThreshold;
      }
      UpdateActiveNavLink(scrollY, sections);
    }

    /** `updateActiveNavLink`: find the current section, then mark exactly the
        links that point at it. */
    method UpdateActiveNavLink(scrollY: int, sections: seq<Section>)
      requires Valid()
      modifies this`linkActive
      ensures Valid()
      ensures var current := CurrentSection(sections, scrollY + SectionProbeOffset);
        forall k :: 0 <= k < |linkHrefs| ==> linkActive[k] == LinkActive(linkHrefs[k], current)
    {
      var current := FindCurrentSection(sections, scrollY);
      var k := 0;
      while k < |linkHrefs|
        invariant 0 <= k <= |linkHrefs| && |linkActive| == |linkHrefs|
        invariant forall m :: 0 <= m < k ==> linkActive[m] == LinkActive(linkHrefs[m], current)
      {
        var href := linkHrefs[k];
        linkActive := linkActive[k := href.Some? && href.value != "" && href.value == "#" + current];
        k := k + 1;
      }
    }
  }

  /** With the modal open, opening and closing the navigation leaves the modal
      open but the page scrollable again: the two share one flag, not a count. */
  method NavCloseUnlocksUnderOpenModal() returns (modalStillOpen: bool, overflow: string)
    ensures modalStillOpen && overflow == ""
  {
    var page := new Chrome(true, true, true, []);
    page.OpenModal();
    page.HamburgerClick();
    page.HamburgerClick();
    modalStillOpen, overflow := page.modalOpen, page.bodyOverflow;
  }
}
