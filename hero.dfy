/** The landing page's hero section: the "LEARN MORE" model-details modal and the
    evaluation-plot lightbox (image list, current index, zoom, caption). Hover effects and
    the demo video are left out. */
module HeroSection {
  import opened Common

  datatype ModelKind = Asr | Mt | Tts

  /** The plots each model's "Evaluation Plots" button opens. */
  function PlotsOf(kind: ModelKind): (images: seq<string>)
    ensures |images| >= 1
  {
    match kind
    case Asr => ["/asrcombined.png"]
    case Mt => ["/mt_combined.png"]
    case Tts => ["/tts_mos.png", "/tts_rtf.png"]
  }

  // ------------------------------------------------------------------ navigation

  /** Previous: `Math.max(0, i - 1)`. */
  function PrevIndex(i: int): (r: int)
    ensures i > 0 ==> r == i - 1
    ensures i <= 0 ==> r == 0
  {
    if i - 1 >= 0 then i - 1 else 0
  }

  /** Next: `Math.min(len - 1, i + 1)`. */
  function NextIndex(len: int, i: int): (r: int)
    ensures i < len - 1 ==> r == i + 1
    ensures i >= len - 1 ==> r == len - 1
  {
    if len - 1 <= i + 1 then len - 1 else i + 1
  }

  /** Both moves keep an index of a non-empty list in range, and stand still at the
      matching end of the list. */
  lemma NavigationStaysInRange(len: int, i: int)
    requires 0 <= i < len
    ensures 0 <= PrevIndex(i) < len && 0 <= NextIndex(len, i) < len
    ensures i == 0 ==> PrevIndex(i) == i
    ensures i == len - 1 ==> NextIndex(len, i) == i
  {
  }

  /** Away from the ends, Previous undoes Next and Next undoes Previous. */
  lemma PrevNextInverse(len: int, i: int)
    requires 0 <= i < len
    ensures i < len - 1 ==> PrevIndex(NextIndex(len, i)) == i
    ensures i > 0 ==> NextIndex(len, PrevIndex(i)) == i
  {
  }

  // ------------------------------------------------------------------ captions

  const Captions: map<string, string> := map[
    "asrcombined.png" := "ASR combined evaluation metrics (WER, CER, etc.)",
    "mtcombined.png" := "MT combined evaluation (BLEU / chrF scores)",
    "mt_combined.png" := "MT combined evaluation (BLEU / chrF scores)",
    "tts_mos.png" := "TTS MOS (mean opinion score) results",
    "tts_rtf.png" := "TTS real-time factor (RTF) measurements"
  ]

  const DefaultCaption: string := "Evaluation plot"

  /** The lookup name of an image: its last `/`-segment, lower-cased. */
  function ImageName(image: string): (r: string)
    ensures IsLowerCase(r)
  {
    LowerIsLowerCase(Last(Split(image, {'/'})));
    Lower(Last(Split(image, {'/'})))
  }

  /** The caption under the current image: the known caption of its name, else the
      generic one. */
  function Caption(image: string): (r: string)
    ensures ImageName(image) in Captions ==> r == Captions[ImageName(image)]
    ensures ImageName(image) !in Captions ==> r == DefaultCaption
  {
    var name := ImageName(image);
    if name in Captions then Captions[name] else DefaultCaption
  }

  /** A name without `/`, under any directory, is looked up as itself lower-cased. */
  lemma CaptionIgnoresDirectory(dir: string, name: string)
    requires HasNone(name, {'/'})
    ensures ImageName(dir + "/" + name) == Lower(name)
    ensures Caption(dir + "/" + name) == Caption(name)
  {
    SplitAfterSeparator(dir, '/', name, {'/'});
    SplitWithoutSeparator(name, {'/'});
  }

  /** Names that differ only in the case of their letters share a caption. */
  lemma CaptionIgnoresCase(dir: string, a: string, b: string)
    requires HasNone(a, {'/'}) && HasNone(b, {'/'})
    requires Lower(a) == Lower(b)
    ensures Caption(dir + "/" + a) == Caption(dir + "/" + b)
  {
    CaptionIgnoresDirectory(dir, a);
    CaptionIgnoresDirectory(dir, b);
  }

  /** A name already in lower case is looked up as it is. */
  lemma {:induction false} LowerOfLowerCase(s: string)
    requires IsLowerCase(s)
    ensures Lower(s) == s
  {
    assert forall i :: 0 <= i < |s| ==> Lower(s)[i] == s[i];
  }

  /** A lower-case name without `/`, under any directory, has the caption the table gives
      it, or the generic one. */
  lemma KnownCaption(dir: string, name: string)
    requires HasNone(name, {'/'}) && IsLowerCase(name)
    ensures Caption(dir + "/" + name) == if name in Captions then Captions[name] else DefaultCaption
  {
    CaptionIgnoresDirectory(dir, name);
    LowerOfLowerCase(name);
  }

  /** Every name in the table is lower-case and has no `/`. */
  lemma TableNamesArePlain()
    ensures forall name :: name in Captions ==> HasNone(name, {'/'}) && IsLowerCase(name)
  {
  }

  /** Two table names with the same caption share it under any directory. */
  lemma SharedCaption(dir: string, a: string, b: string)
    requires a in Captions && b in Captions && Captions[a] == Captions[b] != DefaultCaption
    ensures Caption(dir + "/" + a) == Caption(dir + "/" + b) == Captions[a]
  {
    TableNamesArePlain();
    KnownCaption(dir, a);
    KnownCaption(dir, b);
  }

  /** The two spellings of the MT plot's file name. */
  const MtPlot: string := "mtcombined.png"
  const MtPlotAlt: string := "mt_combined.png"

  /** Both spellings of the MT plot's name carry the same caption, wherever they are. */
  lemma MtCaptionsShared(dir: string)
    ensures Caption(dir + "/" + MtPlot) == Caption(dir + "/" + MtPlotAlt) != DefaultCaption
  {
    assert Captions[MtPlot] == Captions[MtPlotAlt] != DefaultCaption;
    SharedCaption(dir, MtPlot, MtPlotAlt);
  }

  /** A plain image path `/name` with a name from the table has that name's caption. */
  lemma RootCaption(image: string, name: string)
    requires image == "/" + name
    requires HasNone(name, {'/'}) && IsLowerCase(name) && name in Captions
    ensures Caption(image) == Captions[name] != DefaultCaption
  {
    assert image == "" + "/" + name;
    KnownCaption("", name);
  }

  /** Every plot the page opens has its own caption rather than the generic one. */
  lemma PlotsHaveCaptions(kind: ModelKind, i: int)
    requires 0 <= i < |PlotsOf(kind)|
    ensures Caption(PlotsOf(kind)[i]) != DefaultCaption
  {
    var image := PlotsOf(kind)[i];
    var name := image[1..];
    assert image == "/" + name;
    TableNamesArePlain();
    assert name in Captions;
    RootCaption(image, name);
  }

  // ------------------------------------------------------------------ page state

  /** Where a click inside the open lightbox lands. */
  datatype ClickTarget = Backdrop | Panel | CloseButton

  class Hero {
    var modalOpen: Option<ModelKind>
    var evalImages: Option<seq<string>>
    var evalIndex: int
    var zoomed: bool

    /** While the lightbox is open its list is non-empty and the index points into it. */
    ghost predicate Valid()
      reads this
    {
      evalImages.Some? ==> |evalImages.value| > 0 && 0 <= evalIndex < |evalImages.value|
    }

    constructor()
      ensures Valid()
      ensures modalOpen.None? && evalImages.None? && evalIndex == 0 && !zoomed
    {
      modalOpen := None;
      evalImages := None;
      evalIndex := 0;
      zoomed := false;
    }

    /** A "LEARN MORE" button. */
    method LearnMore(kind: ModelKind)
      requires Valid()
      modifies this
      ensures Valid()
      ensures modalOpen == Some(kind)
      ensures evalImages == old(evalImages) && evalIndex == old(evalIndex) && zoomed == old(zoomed)
    {
      modalOpen := Some(kind);
    }

    /** The details modal's `onOpenChange(open)`: closing clears the kind, opening does
        nothing. */
    method ModalOpenChange(open: bool)
      requires Valid() && modalOpen.Some?
      modifies this
      ensures Valid()
      ensures modalOpen == if open then old(modalOpen) else None
      ensures evalImages == old(evalImages) && evalIndex == old(evalIndex) && zoomed == old(zoomed)
    {
      if !open {
        modalOpen := None;
      }
    }

    /** An "Evaluation Plots" button: open the lightbox on the first plot, unzoomed. */
    method OpenPlots(kind: ModelKind)
      requires Valid()
      modifies this
      ensures Valid()
      ensures evalImages == Some(PlotsOf(kind)) && evalIndex == 0 && !zoomed
      ensures modalOpen == old(modalOpen)
    {
      evalImages := Some(PlotsOf(kind));
      evalIndex := 0;
      zoomed := false;
    }

    /** A Previous button: shown for lists of two or more, disabled on the first plot. */
    method Prev()
      requires Valid() && evalImages.Some? && |evalImages.value| > 1 && evalIndex != 0
      modifies this
      ensures Valid()
      ensures evalIndex == PrevIndex(old(evalIndex)) == old(evalIndex) - 1
      ensures evalImages == old(evalImages) && zoomed == old(zoomed) && modalOpen == old(modalOpen)
    {
      evalIndex := PrevIndex(evalIndex);
    }

    /** A Next button: shown for lists of two or more, disabled on the last plot. */
    method Next()
      requires Valid() && evalImages.Some? && |evalImages.value| > 1
      requires evalIndex != |evalImages.value| - 1
      modifies this
      ensures Valid()
      ensures evalImages == old(evalImages) && zoomed == old(zoomed) && modalOpen == old(modalOpen)
      ensures evalIndex == NextIndex(|evalImages.value|, old(evalIndex)) == old(evalIndex) + 1
    {
      evalIndex := NextIndex(|evalImages.value|, evalIndex);
    }

    /** The zoom button, or a click on the image: flip the zoom. */
    method ToggleZoom()
      requires Valid() && evalImages.Some?
      modifies this
      ensures Valid()
      ensures zoomed == !old(zoomed)
      ensures evalImages == old(evalImages) && evalIndex == old(evalIndex) && modalOpen == old(modalOpen)
    {
      zoomed := !zoomed;
    }

    /** A click on the backdrop or the Close button closes the lightbox; a click inside the
        panel stops there. The index and zoom are left as they were. */
    method Click(target: ClickTarget)
      requires Valid() && evalImages.Some?
      modifies this
      ensures Valid()
      ensures target == Panel ==> evalImages == old(evalImages)
      ensures target != Panel ==> evalImages.None?
      ensures evalIndex == old(evalIndex) && zoomed == old(zoomed) && modalOpen == old(modalOpen)
    {
      if target != Panel {
        evalImages := None;
      }
    }

    /** The caption shown under the current plot. */
    method CurrentCaption() returns (caption: string)
      requires Valid() && evalImages.Some?
      ensures caption == Caption(evalImages.value[evalIndex])
    {
      caption := Caption(evalImages.value[evalIndex]);
    }
  }
}
