/** The evaluation page: one `view` cell with three values, changed only by
    the click handlers of the controls the current view renders. */
module Evaluate {
  import opened Options
  import opened Text

  datatype ViewState = Selection | Preset | Upload

  /** Every clickable thing the page can render. */
  datatype Control =
    | BackToSelectionButton      // header button, outside the selection view
    | BackToConsoleLink          // header link to the console, in the selection view
    | UsePresetCard              // first selection card
    | UploadPolicyCard           // second selection card
    | PresetPolicyCard(index: nat)
    | PolicyFileInput

  const ConsoleHref: string := "/console"

  /** A preset policy card: title, badge, description and criteria. */
  datatype PresetPolicy = PresetPolicy(title: string, badge: string, desc: string, criteria: seq<string>)

  const Presets: seq<PresetPolicy> := [
    PresetPolicy("Balanced Policy", "Balanced",
      "Standard criteria for general-purpose model evaluation.",
      ["MMLU Score", "Refusal Rate", "Context Window"]),
    PresetPolicy("Safety-First Policy", "Safety",
      "Emphasizes safety and responsible AI principles.",
      ["Refusal Rate", "Jailbreak Rate", "Toxicity Score"]),
    PresetPolicy("Performance-Max Policy", "Performance",
      "Focuses on raw capability and benchmark scores.",
      ["MMLU Score", "Code Gen Score", "Latency"]),
    PresetPolicy("Governance Policy", "Governance",
      "Ensures regulatory and compliance requirements.",
      ["Audit Status", "Data Recency", "Transparency"])
  ]

  /** The controls each view renders: the header holds the console link in the
      selection view and the Back button in the other two; the selection view
      adds its two cards, the preset view one card per preset and the upload
      view the file input. */
  function Controls(v: ViewState): (cs: set<Control>)
    ensures (BackToConsoleLink in cs) != (BackToSelectionButton in cs)
    ensures BackToConsoleLink in cs <==> v == Selection
    ensures UsePresetCard in cs <==> v == Selection
    ensures UploadPolicyCard in cs <==> v == Selection
    ensures PolicyFileInput in cs <==> v == Upload
    ensures forall i: nat :: PresetPolicyCard(i) in cs <==> v == Preset && i < |Presets|
  {
    match v
    case Selection => {BackToConsoleLink, UsePresetCard, UploadPolicyCard}
    case Preset =>
      var cards := set i | 0 <= i < |Presets| :: PresetPolicyCard(i);
      assert forall i: nat :: PresetPolicyCard(i) in cards <==> i < |Presets|;
      {BackToSelectionButton} + cards
    case Upload => {BackToSelectionButton, PolicyFileInput}
  }

  /** The view a control's click handler sets: each view is set by exactly one
      control, and preset cards, the file input and the console link, which
      navigates away instead, set none. */
  function Handler(c: Control): (r: Option<ViewState>)
    ensures r == Some(Selection) <==> c == BackToSelectionButton
    ensures r == Some(Preset) <==> c == UsePresetCard
    ensures r == Some(Upload) <==> c == UploadPolicyCard
    ensures r == None <==> c == BackToConsoleLink || c == PolicyFileInput || c.PresetPolicyCard?
  {
    match c
    case BackToSelectionButton => Some(Selection)
    case UsePresetCard => Some(Preset)
    case UploadPolicyCard => Some(Upload)
    case _ => None
  }

  /** Where a control navigates to, when it is a link. */
  function Href(c: Control): Option<string>
  {
    if c == BackToConsoleLink then Some(ConsoleHref) else None
  }

  /** The view after a click: a rendered control with a handler sets its
      view; any other click leaves the view as it is. So the preset and upload
      views are left only by Back, which returns to the selection view, and
      only the selection view leads into the other two. */
  function Next(v: ViewState, c: Control): (r: ViewState)
    ensures r != v ==> c in Controls(v) && Handler(c) == Some(r)
    ensures v != Selection ==> (r != v <==> c == BackToSelectionButton)
    ensures v != Selection && r != v ==> r == Selection
    ensures r != v && r != Selection ==> v == Selection
  {
    if c in Controls(v) && Handler(c).Some? then Handler(c).value else v
  }

  /** The views after a sequence of clicks. */
  function Run(v: ViewState, clicks: seq<Control>): ViewState
    decreases |clicks|
  {
    if clicks == [] then v else Run(Next(v, clicks[0]), clicks[1..])
  }

  /** The header shows exactly one of its two controls: the console link in
      the selection view and the Back button in the other two. */
  lemma HeaderShowsOneControl(v: ViewState)
    ensures (BackToConsoleLink in Controls(v)) != (BackToSelectionButton in Controls(v))
    ensures BackToConsoleLink in Controls(v) <==> v == Selection
    ensures BackToConsoleLink in Controls(v) ==> Href(BackToConsoleLink) == Some("/console")
  {
  }

  /** The two selection cards open the preset and the upload view. */
  lemma SelectionCardsOpenTheirViews()
    ensures Next(Selection, UsePresetCard) == Preset
    ensures Next(Selection, UploadPolicyCard) == Upload
  {
  }

  /** Back always returns to the selection view. */
  lemma BackReturnsToSelection(v: ViewState)
    requires v != Selection
    ensures Next(v, BackToSelectionButton) == Selection
  {
  }

  /** No single click goes from the preset view to the upload view or back. */
  lemma NoDirectSwitch(c: Control)
    ensures Next(Preset, c) != Upload && Next(Upload, c) != Preset
  {
  }

  /** A session reaches the preset view only through the preset card, and the upload view only through the upload card. */
  lemma {:induction false} ViewsReachedOnlyThroughTheirCards(v: ViewState, clicks: seq<Control>)
    ensures Run(v, clicks) == Preset ==> v == Preset || UsePresetCard in clicks
    ensures Run(v, clicks) == Upload ==> v == Upload || UploadPolicyCard in clicks
    decreases |clicks|
  {
    if clicks != [] {
      ViewsReachedOnlyThroughTheirCards(Next(v, clicks[0]), clicks[1..]);
      assert forall c :: c in clicks[1..] ==> c in clicks;
      assert clicks[0] in clicks;
    }
  }

  // ---- titles and subtitles ----

  /** `{cond && 'text'}`: the text when the condition holds, nothing otherwise. */
  function Fragment(shown: bool, text: string): string
  {
    if shown then text else ""
  }

  /** The heading: one conditional fragment per view, rendered in sequence. */
  function Title(v: ViewState): string
  {
    Fragment(v == Selection, "How to Evaluate?") +
    Fragment(v == Preset, "Select a Preset Policy") +
    Fragment(v == Upload, "Upload Your Policy")
  }

  function Subtitle(v: ViewState): string
  {
    Fragment(v == Selection, "Choose how you want to set up your evaluation policy.") +
    Fragment(v == Preset, "Choose from pre-configured evaluation policies optimized for different goals.") +
    Fragment(v == Upload, "Upload a PDF, Word, or TXT file to auto-extract evaluation criteria.")
  }

  /** The heading each view is meant to show. */
  function ExpectedTitle(v: ViewState): string
  {
    match v
    case Selection => "How to Evaluate?"
    case Preset => "Select a Preset Policy"
    case Upload => "Upload Your Policy"
  }

  function ExpectedSubtitle(v: ViewState): string
  {
    match v
    case Selection => "Choose how you want to set up your evaluation policy."
    case Preset => "Choose from pre-configured evaluation policies optimized for different goals."
    case Upload => "Upload a PDF, Word, or TXT file to auto-extract evaluation criteria."
  }

  /** One shown fragment between two empty ones is the shown text. */
  lemma OneFragmentShown(a: string, b: string, c: string, t: string)
    requires (a == t && b == "" && c == "") || (a == "" && b == t && c == "") || (a == "" && b == "" && c == t)
    ensures a + b + c == t
  {
    assert t + "" == t && "" + t == t && "" + "" == "";
  }

  /** Exactly one heading fragment shows in each view. */
  lemma OneTitlePerView(v: ViewState)
    ensures Title(v) == ExpectedTitle(v)
  {
    OneFragmentShown(Fragment(v == Selection, "How to Evaluate?"), Fragment(v == Preset, "Select a Preset Policy"),
      Fragment(v == Upload, "Upload Your Policy"), ExpectedTitle(v));
  }

  /** Exactly one subtitle fragment shows in each view. */
  lemma OneSubtitlePerView(v: ViewState)
    ensures Subtitle(v) == ExpectedSubtitle(v)
  {
    OneFragmentShown(
      Fragment(v == Selection, "Choose how you want to set up your evaluation policy."),
      Fragment(v == Preset, "Choose from pre-configured evaluation policies optimized for different goals."),
      Fragment(v == Upload, "Upload a PDF, Word, or TXT file to auto-extract evaluation criteria."),
      ExpectedSubtitle(v));
  }

  /** Different views show different headings, so the heading tells the view. */
  lemma TitleIdentifiesView(v: ViewState, w: ViewState)
    ensures Title(v) == Title(w) <==> v == w
  {
    OneTitlePerView(v);
    OneTitlePerView(w);
    assert |ExpectedTitle(Selection)| == 16 && |ExpectedTitle(Preset)| == 22 && |ExpectedTitle(Upload)| == 18;
  }

  // ---- preset cards ----

  /** The card's `Criteria (n)` heading. */
  function CriteriaHeading(p: PresetPolicy): string
  {
    "Criteria (" + NatToString(|p.criteria|) + ")"
  }

  /** Four presets, each listing three criteria under the heading `Criteria (3)`. */
  lemma PresetsListThreeCriteria()
    ensures |Presets| == 4
    ensures forall i :: 0 <= i < |Presets| ==> |Presets[i].criteria| == 3 && CriteriaHeading(Presets[i]) == "Criteria (3)"
  {
    assert NatToString(3) == "3";
  }

  /** The preset view renders exactly one card per preset. */
  lemma PresetViewRendersEveryPreset(i: nat)
    ensures PresetPolicyCard(i) in Controls(Preset) <==> i < |Presets|
    ensures PresetPolicyCard(i) !in Controls(Selection) && PresetPolicyCard(i) !in Controls(Upload)
  {
  }

  /** The page's one state cell. */
  class EvaluatePage {
    var view: ViewState

    constructor()
      ensures view == Selection
    {
      view := Selection;
    }

    /** A click on control `c`: the handler of a rendered control runs `setView`. */
    method Press(c: Control)
      modifies this
      ensures view == Next(old(view), c)
    {
      if c in Controls(view) {
        match Handler(c)
        case Some(target) => view := target;
        case None =>
      }
    }
  }
}
