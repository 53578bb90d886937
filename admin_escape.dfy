/** The copy of `esc` that front/admin/js/admin-app.js defines for itself. */
module AdminApp {
  import opened Wrappers
  import opened Text
  import Escape

  /** `esc(t)` of the admin panel: the same six replaces in the same order,
      so it agrees with the public `esc` on every input. */
  function Esc(t: Option<string>): (r: string)
    ensures r == Escape.Esc(t)
    ensures Escape.Unescape(r) == Escape.OrEmpty(t)
  {
    var s := match t case None => "" case Some(s) => s;
    Escape.ChainIsEscapeMap(s);
    Escape.UnescapeEsc(s);
    ReplaceAll(ReplaceAll(ReplaceAll(ReplaceAll(ReplaceAll(ReplaceAll(
      s, "&", "&amp;"), "<", "&lt;"), ">", "&gt;"), "\"", "&quot;"), "'", "&#39;"), "\n", "<br>")
  }
}
