// The per-session state of the web interface
// (de.mpg.imeji.presentation.session.SessionBean): the selected style
// sheet, the browse view, the selected items and the clipboard. Cookies
// are a map from cookie name to value; the user is represented by the
// e-mail address, the only part of it the bean reads here.
module SessionBean {
  import opened Wrappers
  import opened JavaStrings

  /** `Style`: NONE (no style sheet), the default one or the alternative one. */
  datatype Style = NoStyle | Default | Alternative

  function StyleName(s: Style): string {
    match s
    case NoStyle => "NONE"
    case Default => "DEFAULT"
    case Alternative => "ALTERNATIVE"
  }

  /** `Style.valueOf`: the style of that exact name, nothing (IllegalArgumentException) otherwise. */
  function StyleValueOf(name: string): (r: Option<Style>)
    ensures r.Some? ==> StyleName(r.value) == name
  {
    if name == "NONE" then Some(NoStyle)
    else if name == "DEFAULT" then Some(Default)
    else if name == "ALTERNATIVE" then Some(Alternative)
    else Option.None
  }

  lemma StyleValueOfName(s: Style)
    ensures StyleValueOf(StyleName(s)) == Some(s)
  {
  }

  const StyleCookie: string := "IMEJI_STYLE"
  const BrowseViewCookie: string := "IMEJI_BROWSE_VIEW"

  /** The names of `ImejiConfiguration.BROWSE_VIEW`. */
  const List: string := "LIST"
  const Thumbnail: string := "THUMBNAIL"

  /** A style sheet is configured when its value is neither null nor empty. */
  predicate Configured(css: Option<string>) {
    css.Some? && css.value != ""
  }

  /**
   * The style `checkCss` settles on: the alternative one while it is
   * configured and selected, else the default one when it is configured,
   * else none.
   */
  function CheckedCss(s: Style, defaultCss: Option<string>, alternativeCss: Option<string>): (r: Style)
    ensures r == Alternative ==> Configured(alternativeCss)
    ensures r == Default ==> Configured(defaultCss)
    ensures r == NoStyle ==> !Configured(defaultCss)
  {
    if s == Alternative && Configured(alternativeCss) then Alternative
    else if Configured(defaultCss) then Default
    else NoStyle
  }

  /** The three corrections `checkCss` makes, one after the other. */
  lemma CheckedCssTransitions(s: Style, defaultCss: Option<string>, alternativeCss: Option<string>)
    ensures s == Alternative && !Configured(alternativeCss) && Configured(defaultCss) ==>
      CheckedCss(s, defaultCss, alternativeCss) == Default
    ensures s == Default && !Configured(defaultCss) ==> CheckedCss(s, defaultCss, alternativeCss) == NoStyle
    ensures s == NoStyle && Configured(defaultCss) ==> CheckedCss(s, defaultCss, alternativeCss) == Default
    ensures s == Alternative && Configured(alternativeCss) ==> CheckedCss(s, defaultCss, alternativeCss) == Alternative
  {
  }

  /** Checking twice with the same configuration changes nothing more. */
  lemma CheckedCssIdempotent(s: Style, defaultCss: Option<string>, alternativeCss: Option<string>)
    ensures CheckedCss(CheckedCss(s, defaultCss, alternativeCss), defaultCss, alternativeCss)
      == CheckedCss(s, defaultCss, alternativeCss)
  {
  }

  /** `toggleCss`: the default style becomes the alternative one, any other the default one. */
  function ToggledCss(s: Style): (r: Style)
    ensures r != NoStyle && r != s
  {
    if s == Default then Alternative else Default
  }

  lemma ToggledCssTwice(s: Style)
    requires s != NoStyle
    ensures ToggledCss(ToggledCss(s)) == s
  {
  }

  /** `toggleBrowseView`: the list view becomes the thumbnail view, any other the list view. */
  function ToggledBrowseView(view: string): (r: string)
    ensures r == List || r == Thumbnail
    ensures r != view || (view != List && view != Thumbnail)
  {
    if view == List then Thumbnail else List
  }

  lemma ToggledBrowseViewTwice(view: string)
    requires view == List || view == Thumbnail
    ensures ToggledBrowseView(ToggledBrowseView(view)) == view
  {
  }

  datatype Error = ArrayIndexOutOfBounds

  /** `getInstituteByUser`: the second '@'-separated part of the e-mail, "" without a user. */
  function InstituteByUser(email: Option<string>): (r: Result<string, Error>)
  {
    match email
    case None => Success("")
    case Some(e) =>
      var parts := Split(e, "@");
      if |parts| < 2 then Failure(ArrayIndexOutOfBounds) else Success(parts[1])
  }

  /** For an address "name@domain" the institute is the domain; an address without '@' fails. */
  lemma InstituteByUserSpec(name: string, domain: string)
    requires '@' !in name && '@' !in domain && domain != ""
    ensures InstituteByUser(Some(name + "@" + domain)) == Success(domain)
    ensures InstituteByUser(Some(name)) == Failure(ArrayIndexOutOfBounds)
  {
    assert name + "@" + domain == name + ['@'] + domain;
    SplitOnce(name, '@', domain);
    NoCharNoContains(name, '@');
  }

  class SessionBean {
    var selectedCss: Style
    var selectedBrowseListView: string
    var selected: seq<string>
    var clipboard: set<string>
    var cookies: map<string, string>
    var email: Option<string>

    /**
     * The bean of a new session, with the style and the browse view read
     * from their cookies (or the defaults) beforehand.
     */
    constructor(style: Style, browseView: string, cookies: map<string, string>)
      ensures selectedCss == style && selectedBrowseListView == browseView
      ensures selected == [] && clipboard == {} && email == Option.None
      ensures this.cookies == cookies
    {
      selectedCss := style;
      selectedBrowseListView := browseView;
      selected := [];
      clipboard := {};
      this.cookies := cookies;
      email := Option.None;
    }

    /** `checkCss`: corrects the selected style against the configured style sheets, step by step. */
    method CheckCss(defaultCss: Option<string>, alternativeCss: Option<string>)
      modifies this
      ensures selectedCss == CheckedCss(old(selectedCss), defaultCss, alternativeCss)
      ensures selectedBrowseListView == old(selectedBrowseListView) && selected == old(selected)
      ensures clipboard == old(clipboard) && cookies == old(cookies) && email == old(email)
    {
      if selectedCss == Alternative && !Configured(alternativeCss) {
        selectedCss := Default;
      }
      if selectedCss == Default && !Configured(defaultCss) {
        selectedCss := NoStyle;
      }
      if selectedCss == NoStyle && Configured(defaultCss) {
        selectedCss := Default;
      }
    }

    /** `toggleCss`: switches the style and stores its name in the style cookie. */
    method ToggleCss()
      modifies this
      ensures selectedCss == ToggledCss(old(selectedCss))
      ensures cookies == old(cookies)[StyleCookie := StyleName(selectedCss)]
      ensures selectedBrowseListView == old(selectedBrowseListView) && selected == old(selected)
      ensures clipboard == old(clipboard) && email == old(email)
    {
      selectedCss := if selectedCss == Default then Alternative else Default;
      cookies := cookies[StyleCookie := StyleName(selectedCss)];
    }

    /** `toggleBrowseView`: switches the view and stores it in the browse-view cookie. */
    method ToggleBrowseView()
      modifies this
      ensures selectedBrowseListView == ToggledBrowseView(old(selectedBrowseListView))
      ensures cookies == old(cookies)[BrowseViewCookie := selectedBrowseListView]
      ensures selectedCss == old(selectedCss) && selected == old(selected)
      ensures clipboard == old(clipboard) && email == old(email)
    {
      selectedBrowseListView := if selectedBrowseListView == List then Thumbnail else List;
      cookies := cookies[BrowseViewCookie := selectedBrowseListView];
    }

    /** `addToClipBoard`: every selected item joins the clipboard; the selection stays. */
    method AddToClipBoard()
      modifies this
      ensures clipboard == old(clipboard) + set i | 0 <= i < |selected| :: selected[i]
      ensures forall i :: 0 <= i < |selected| ==> selected[i] in clipboard
      ensures selected == old(selected) && selectedCss == old(selectedCss)
      ensures selectedBrowseListView == old(selectedBrowseListView) && cookies == old(cookies) && email == old(email)
    {
      clipboard := clipboard + set i | 0 <= i < |selected| :: selected[i];
    }

    /** `clearClipboard`. */
    method ClearClipboard()
      modifies this
      ensures clipboard == {}
      ensures selected == old(selected) && selectedCss == old(selectedCss)
      ensures selectedBrowseListView == old(selectedBrowseListView) && cookies == old(cookies) && email == old(email)
    {
      clipboard := {};
    }
  }
}
