/**
 * Click routing of the comment list (js/components/comment-list.js, lines
 * 19-26): one listener on the container; a click on or inside an element of
 * class `export-btn` prevents the default action and calls the optional
 * `onCommentExport` with the button's `data-comment-id`, and nothing else.
 */
module ClickRouting {
  import opened JsValues
  import Cards

  /** An element: its class tokens and its `data-comment-id` (`None` when absent). */
  datatype Element = Element(classList: seq<JsString>, dataCommentId: Option<JsString>)

  const ExportButtonClass: JsString := Lit("export-btn")

  /** `element.matches('.export-btn')`. */
  predicate IsExportButton(e: Element) {
    ExportButtonClass in e.classList
  }

  /** `target.closest('.export-btn')` over the chain target, parent, ..., root. */
  function Closest(chain: seq<Element>): (r: Option<nat>)
    ensures r.Some? ==> r.value < |chain| && IsExportButton(chain[r.value])
    ensures r.Some? ==> forall k :: 0 <= k < r.value ==> !IsExportButton(chain[k])
    ensures r.None? ==> forall k :: 0 <= k < |chain| ==> !IsExportButton(chain[k])
  {
    if chain == [] then None
    else if IsExportButton(chain[0]) then Some(0)
    else match Closest(chain[1..])
      case None => None
      case Some(k) => Some(k + 1)
  }

  /** What the listener does: whether it called `preventDefault`, and the arguments
      of each call it made to `onCommentExport`. */
  datatype ClickEffect = ClickEffect(defaultPrevented: bool, exportCalls: seq<Option<JsString>>)

  /** The container's click listener, for a chain that starts at `e.target`. */
  function RouteClick(chain: seq<Element>, hasExportHandler: bool): (eff: ClickEffect)
    ensures eff.defaultPrevented <==> exists j :: 0 <= j < |chain| && IsExportButton(chain[j])
    ensures |eff.exportCalls| <= 1
    ensures |eff.exportCalls| == 1 <==> hasExportHandler && eff.defaultPrevented
    ensures |eff.exportCalls| == 1 ==>
              exists j :: 0 <= j < |chain| && IsExportButton(chain[j]) &&
                (forall k :: 0 <= k < j ==> !IsExportButton(chain[k])) &&
                eff.exportCalls[0] == chain[j].dataCommentId
  {
    if (chain != [] && IsExportButton(chain[0])) || Closest(chain).Some? then
      var btn := chain[Closest(chain).value];
      ClickEffect(true, if hasExportHandler then [btn.dataCommentId] else [])
    else
      ClickEffect(false, [])
  }

  /** The export button of a rendered card and the icon inside it. */
  function ExportButtonOf(card: Cards.Card): Element {
    Element([Lit("btn"), Lit("btn-outline-primary"), Lit("btn-sm"), ExportButtonClass], Some(card.commentId))
  }

  const DownloadIcon: Element := Element([Lit("bi"), Lit("bi-download")], None)

  /** A click on a card's export button, or on its icon, exports that card's comment,
      whatever the elements above it are. */
  lemma ClickOnExportButton(card: Cards.Card, above: seq<Element>)
    ensures RouteClick([ExportButtonOf(card)] + above, true).exportCalls == [Some(card.commentId)]
    ensures RouteClick([DownloadIcon, ExportButtonOf(card)] + above, true).exportCalls == [Some(card.commentId)]
  {
    var icon := DownloadIcon;
    assert !IsExportButton(icon) by {
      assert |Lit("bi")| != |ExportButtonClass| && |Lit("bi-download")| != |ExportButtonClass|;
    }
    assert IsExportButton(ExportButtonOf(card)) by {
      assert ExportButtonOf(card).classList[3] == ExportButtonClass;
    }
    var chain := [icon, ExportButtonOf(card)] + above;
    assert chain[1..] == [ExportButtonOf(card)] + above;
  }
}
