/**
 * The start menu: four fixed entries, a case-insensitive search box that
 * filters them, and the ways the menu asks its owner to close.
 */
module StartMenu {
  import opened Wrappers
  import opened Sequences
  import opened Strings

  /** The owner's callbacks an entry can trigger. */
  datatype Action = ToggleMusic | ToggleGallery | ToggleBlog | ToggleInfo

  datatype MenuItem = MenuItem(id: string, name: string, action: Action)

  /** The entries, in display order. */
  const MenuItems: seq<MenuItem> := [
    MenuItem("music", "Music Player", ToggleMusic),
    MenuItem("gallery", "Gallery", ToggleGallery),
    MenuItem("blog", "Blog", ToggleBlog),
    MenuItem("info", "Portfolio Info", ToggleInfo)]

  /** Whether an entry's name, lower-cased, includes the lower-cased search term. */
  predicate Matches(term: string, item: MenuItem)
  {
    Contains(ToLower(item.name), ToLower(term))
  }

  /** The filter callback for one search term. */
  function MatchesTerm(term: string): MenuItem -> bool
  {
    (item: MenuItem) => Matches(term, item)
  }

  /** The entries whose names match the search term, in their original order. */
  function FilteredItems(items: seq<MenuItem>, term: string): (r: seq<MenuItem>)
    ensures |r| <= |items|
    ensures forall i :: 0 <= i < |r| ==> Matches(term, r[i])
  {
    Filter(items, MatchesTerm(term))
  }

  /** An entry is listed exactly when it is one of the entries and its name matches. */
  lemma FilteredMembership(items: seq<MenuItem>, term: string, item: MenuItem)
    ensures item in FilteredItems(items, term) <==> item in items && Matches(term, item)
    ensures IsSubsequence(FilteredItems(items, term), items)
  {
    FilterMembership(items, MatchesTerm(term), item);
    FilterIsSubsequence(items, MatchesTerm(term));
  }

  /** An empty search box lists every entry, in order. */
  lemma EmptyTermListsAll(items: seq<MenuItem>)
    ensures FilteredItems(items, "") == items
  {
    forall i | 0 <= i < |items|
      ensures Matches("", items[i])
    {
      ContainsEmpty(ToLower(items[i].name));
    }
    FilterKeepsAll(items, MatchesTerm(""));
  }

  /** Search terms that differ only in letter case list the same entries. */
  lemma SearchIgnoresCase(items: seq<MenuItem>, a: string, b: string)
    requires ToLower(a) == ToLower(b)
    ensures FilteredItems(items, a) == FilteredItems(items, b)
  {
    FilterCongruent(items, MatchesTerm(a), MatchesTerm(b));
  }

  /** A name with no letter m in either case never matches a term starting with m. */
  lemma NoLetterMNoMatch(term: string, item: MenuItem)
    requires |term| > 0 && LowerChar(term[0]) == 'm'
    requires 'm' !in item.name && 'M' !in item.name
    ensures !Matches(term, item)
  {
    var lower := ToLower(item.name);
    assert 'm' !in lower by {
      forall i | 0 <= i < |lower|
        ensures lower[i] != 'm'
      {
        assert lower[i] == LowerChar(item.name[i]);
        assert item.name[i] != 'm' && item.name[i] != 'M';
      }
    }
    ContainsNeedsFirstChar(lower, ToLower(term));
  }

  lemma MusicPlayerMatches()
    ensures Matches("MUSIC", MenuItems[0])
  {
    var term := ToLower("MUSIC");
    var name := ToLower("Music Player");
    assert term == "music" by {
      assert term[0] == LowerChar('M') == 'm';
    }
    assert name[..5] == "music" by {
      assert name[0] == LowerChar('M') == 'm';
    }
    assert term <= name;
  }

  /** Searching for "MUSIC" lists only the music player. */
  lemma SearchMusic()
    ensures FilteredItems(MenuItems, "MUSIC") == [MenuItems[0]]
  {
    MusicPlayerMatches();
    NoOtherEntryMatchesMusic();
  }

  lemma NoOtherEntryMatchesMusic()
    ensures Filter(MenuItems[1..], MatchesTerm("MUSIC")) == []
  {
    var rest := MenuItems[1..];
    forall i | 0 <= i < |rest|
      ensures !MatchesTerm("MUSIC")(rest[i])
    {
      EntryWithoutMDoesNotMatchMusic(rest[i]);
    }
    FilterKeepsNone(rest, MatchesTerm("MUSIC"));
  }

  lemma EntryWithoutMDoesNotMatchMusic(item: MenuItem)
    requires item in MenuItems[1..]
    ensures !Matches("MUSIC", item)
  {
    NoLetterMNoMatch("MUSIC", item);
  }

  /** What the menu asks of its owner. */
  datatype Effect = Run(action: Action) | RequestClose

  /** Choosing an entry runs its action and then closes the menu. */
  function ItemClicked(item: MenuItem): (effects: seq<Effect>)
    ensures |effects| == 2 && effects[0] == Run(item.action) && effects[|effects| - 1] == RequestClose
  {
    [Run(item.action), RequestClose]
  }

  /** A key press closes the menu only when it is Escape and the menu is open. */
  function KeyDown(isOpen: bool, key: string): (effects: seq<Effect>)
    ensures effects == [RequestClose] <==> isOpen && key == "Escape"
    ensures effects != [RequestClose] ==> effects == []
  {
    if key == "Escape" && isOpen then [RequestClose] else []
  }

  /** A press anywhere outside an open menu closes it; the listener is not installed while it is closed. */
  function PointerDown(isOpen: bool, insideMenu: bool): (effects: seq<Effect>)
    ensures effects == [RequestClose] <==> isOpen && !insideMenu
    ensures effects != [RequestClose] ==> effects == []
  {
    if isOpen && !insideMenu then [RequestClose] else []
  }

  /**
   * Whether the menu is open after its owner has handled the effects in order:
   * a close request closes it; the window toggles leave it as it is.
   */
  function OpenAfter(isOpen: bool, effects: seq<Effect>): (open: bool)
    decreases |effects|
  {
    if |effects| == 0 then isOpen
    else OpenAfter(if effects[0] == RequestClose then false else isOpen, effects[1..])
  }

  /** No effect sequence opens the menu, and one holding a close request always leaves it closed. */
  lemma {:induction false} EffectsNeverOpen(isOpen: bool, effects: seq<Effect>)
    ensures OpenAfter(isOpen, effects) ==> isOpen
    ensures RequestClose in effects ==> !OpenAfter(isOpen, effects)
    decreases |effects|
  {
    if |effects| > 0 {
      EffectsNeverOpen(if effects[0] == RequestClose then false else isOpen, effects[1..]);
      if RequestClose in effects && effects[0] != RequestClose {
        assert RequestClose in effects[1..];
      }
    }
  }

  /**
   * Choosing an entry leaves the menu closed, after which neither Escape nor an
   * outside press asks for anything (their listeners are gone).
   */
  lemma ItemClickedThenQuiet(item: MenuItem, key: string, insideMenu: bool)
    ensures !OpenAfter(true, ItemClicked(item))
    ensures KeyDown(OpenAfter(true, ItemClicked(item)), key) == []
    ensures PointerDown(OpenAfter(true, ItemClicked(item)), insideMenu) == []
  {
    EffectsNeverOpen(true, ItemClicked(item));
  }

  /** On an open menu, Escape and an outside press each close it; any other key or an inside press keeps it open. */
  lemma DismissalCloses(key: string, insideMenu: bool)
    ensures !OpenAfter(true, KeyDown(true, key)) <==> key == "Escape"
    ensures !OpenAfter(true, PointerDown(true, insideMenu)) <==> !insideMenu
  {
  }

  /** A closed menu renders nothing; an open one lists the entries matching the search box. */
  function Rendered(isOpen: bool, searchTerm: string): (r: Option<seq<MenuItem>>)
    ensures r.None? <==> !isOpen
    ensures r.Some? ==> forall item :: item in r.value <==> item in MenuItems && Matches(searchTerm, item)
    ensures r.Some? ==> r.value == FilteredItems(MenuItems, searchTerm) && IsSubsequence(r.value, MenuItems)
  {
    if !isOpen then None
    else
      var items := FilteredItems(MenuItems, searchTerm);
      assert forall item :: item in items <==> item in MenuItems && Matches(searchTerm, item) by {
        forall item ensures item in items <==> item in MenuItems && Matches(searchTerm, item) {
          FilteredMembership(MenuItems, searchTerm, item);
        }
      }
      FilterIsSubsequence(MenuItems, MatchesTerm(searchTerm));
      Some(items)
  }
}
