/** The decision inside handleKeyDown of hooks/useKeyboardShortcuts.ts. */
module Shortcuts {
  import opened Types

  /** Tag names of the controls in which typing must not trigger shortcuts. */
  const TextEntryTags: set<string> := {"INPUT", "TEXTAREA", "SELECT"}

  /** What one keydown event leads to: whether the default is prevented, and which handler runs. */
  datatype Reaction<A> = Reaction(preventDefault: bool, handler: Option<A>)

  /** Focus suppression, then an exact, case-sensitive lookup of event.key. */
  function HandleKeyDown<A>(targetTag: string, key: string, shortcuts: map<string, A>): (r: Reaction<A>)
    ensures r.handler.Some? <==> targetTag !in TextEntryTags && key in shortcuts
    ensures r.handler.Some? ==> r.handler.value == shortcuts[key]
    ensures r.preventDefault <==> r.handler.Some?
  {
    if targetTag in TextEntryTags then Reaction(false, None)
    else if key in shortcuts then Reaction(true, Some(shortcuts[key]))
    else Reaction(false, None)
  }

  /** The lookup is exact: binding "p" alone leaves "P" unbound. */
  lemma LookupIsCaseSensitive<A>(targetTag: string, shortcuts: map<string, A>)
    requires targetTag !in TextEntryTags && "p" in shortcuts && "P" !in shortcuts
    ensures HandleKeyDown(targetTag, "p", shortcuts) == Reaction(true, Some(shortcuts["p"]))
    ensures HandleKeyDown(targetTag, "P", shortcuts) == Reaction(false, None)
  {
  }
}
