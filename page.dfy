/**
 * The small page behaviours around the contact form: the mobile menu toggle,
 * the scroll target of a navigation link, the header's scrolled state and the
 * social-link wiring.
 */
module Page {
  import opened Wrappers

  const BarsIcon: string := "fa-bars"
  const TimesIcon: string := "fa-times"

  /** The mobile navigation and the icon of the button that opens it. */
  class Menu {
    /** Whether the navigation carries the `active` class. */
    var navActive: bool
    /** The classes of the button's `<i>` icon. */
    var iconClasses: set<string>

    /** The icon is a cross exactly while the menu is open, and bars exactly while it is closed. */
    ghost predicate Valid()
      reads this
    {
      (TimesIcon in iconClasses <==> navActive) && (BarsIcon in iconClasses <==> !navActive)
    }

    constructor (icon: set<string>)
      requires BarsIcon in icon && TimesIcon !in icon
      ensures Valid() && !navActive && iconClasses == icon
    {
      navActive := false;
      iconClasses := icon;
    }

    /**
     * A click on the menu button: flips `active`, then swaps the icon to match,
     * so the icon agrees with the menu afterwards whatever it showed before.
     */
    method Toggle()
      modifies this
      ensures Valid()
      ensures navActive == !old(navActive)
      ensures iconClasses == if navActive then old(iconClasses) - {BarsIcon} + {TimesIcon}
                             else old(iconClasses) - {TimesIcon} + {BarsIcon}
    {
      navActive := !navActive;
      if navActive {
        iconClasses := iconClasses - {BarsIcon} + {TimesIcon};
      } else {
        iconClasses := iconClasses - {TimesIcon} + {BarsIcon};
      }
    }

    /** A click on a navigation link closes the menu and shows the bars. */
    method CloseFromLink()
      modifies this
      ensures Valid() && !navActive
      ensures iconClasses == old(iconClasses) - {TimesIcon} + {BarsIcon}
    {
      navActive := false;
      iconClasses := iconClasses - {TimesIcon} + {BarsIcon};
    }
  }

  /** Space left between the bottom of the fixed header and the section scrolled to. */
  const ScrollGap: int := 20

  /**
   * Where a navigation link scrolls: nowhere for the bare `#`, nowhere when no
   * element matches the link's target (`offsetTops` maps each target the page
   * has to its `offsetTop`), and otherwise to the position that puts the
   * target `ScrollGap` pixels below a header `headerHeight` pixels tall.
   */
  function ScrollTarget(href: string, offsetTops: map<string, int>, headerHeight: int): (r: Option<int>)
    ensures r.Some? <==> href != "#" && href in offsetTops
    ensures r.Some? ==> offsetTops[href] - r.value == headerHeight + ScrollGap
  {
    if href == "#" then None
    else if href !in offsetTops then None
    else Some(offsetTops[href] - headerHeight - ScrollGap)
  }

  /** The header is styled as scrolled past this many pixels. */
  const ScrolledThreshold: real := 100.0

  /** The page header and its `scrolled` class. */
  class Header {
    var scrolled: bool

    /** The header as the page loads: the handler runs once for the initial scroll position. */
    constructor (scrollY: real)
      ensures scrolled <==> scrollY > ScrolledThreshold
    {
      scrolled := scrollY > ScrolledThreshold;
    }

    /** `updateHeaderOnScroll`: scrolled exactly when the page is past the threshold, whatever it was before. */
    method UpdateOnScroll(scrollY: real)
      modifies this
      ensures scrolled <==> scrollY > ScrolledThreshold
    {
      if scrollY > ScrolledThreshold {
        scrolled := true;
      } else {
        scrolled := false;
      }
    }
  }

  /** The attributes the social-link loop sets on an anchor. */
  datatype Link = Link(href: string, target: string, rel: string)

  /** The profiles the footer's social links point to, in the links' order. */
  const SocialUrls: seq<string> := [
    "https://facebook.com/markmixstudios",
    "https://twitter.com/markmixstudios",
    "https://linkedin.com/company/markmixstudios",
    "https://instagram.com/markmixstudios",
    "https://github.com/markmixstudios"
  ]

  /** The anchor the i-th social link becomes: the i-th profile, opened in a new tab without an opener. */
  function SocialLink(i: nat): Link
    requires i < |SocialUrls|
  {
    Link(SocialUrls[i], "_blank", "noopener noreferrer")
  }

  /**
   * The social-link loop: each of the first five links gets its profile and
   * opens in a new tab without an opener; any further link is left alone.
   */
  method AssignSocialLinks(links: array<Link>)
    modifies links
    ensures forall i | 0 <= i < links.Length ::
      links[i] == if i < |SocialUrls| then SocialLink(i) else old(links[i])
  {
    var index := 0;
    while index < links.Length
      invariant 0 <= index <= links.Length
      invariant forall i | 0 <= i < index ::
        links[i] == if i < |SocialUrls| then SocialLink(i) else old(links[i])
      invariant forall i | index <= i < links.Length :: links[i] == old(links[i])
    {
      if index < |SocialUrls| {
        links[index] := SocialLink(index);
      }
      index := index + 1;
    }
  }

}
