/** The host page objects the cursor code touches. */
module Dom {

  /** An HTML element; only its `style.cursor` is modelled. */
  class HtmlElement {
    var cursor: string

    constructor (cursor: string)
      ensures this.cursor == cursor
    {
      this.cursor := cursor;
    }
  }

  /** An OpenLayers map: `getViewport()` always gives an element,
      `getTargetElement()` gives none while the map is not attached to the page. */
  class OlMap {
    const viewport: HtmlElement
    const target: HtmlElement?

    constructor (viewport: HtmlElement, target: HtmlElement?)
      ensures this.viewport == viewport && this.target == target
    {
      this.viewport := viewport;
      this.target := target;
    }
  }
}
