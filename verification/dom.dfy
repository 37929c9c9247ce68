/** The page elements the script touches, as far as the model needs them: an element
    the page may lack is an `Option`, and its text is a `string`. */
module Dom {
  import opened Wrappers

  /** `if (el) el.textContent = text`: a present element now reads `text`; a missing
      element stays missing. This is `setError`, and the FAQ's icon update. */
  function SetText(el: Option<string>, text: string): (r: Option<string>)
    ensures r.Some? <==> el.Some?
    ensures r.Some? ==> r.value == text
  {
    if el.Some? then Some(text) else None
  }
}
