/** The page itself: the rendered student list, the page controls with their active
    marker, the visibility of the pagination region and the "No result" notice, and the
    handlers that change them (showPage, addPagination, a click on a control, and the
    search-input handler). */
module View {
  import opened Records
  import opened Paging
  import opened Search

  /** The cards page `page` of `list` shows: one card per record of the page window,
      in list order. */
  function Render(list: seq<Student>, page: nat): (cs: seq<Card>)
    requires page >= 1
    ensures |cs| == Min(PageSize, Max(0, |list| - (page - 1) * PageSize))
    ensures forall k :: 0 <= k < |cs| ==> cs[k] == CardOf(list[(page - 1) * PageSize + k])
  {
    Cards(PageWindow(list, page))
  }

  /** Where a click on the control list lands: on the button of the control at `index`,
      or on some other part of the list (an item or the list itself). */
  datatype Target = ControlButton(index: nat) | Elsewhere

  class ViewState {
    /** The full dataset, fixed for the life of the page. */
    const data: seq<Student>
    /** The cards in the student list container, top to bottom. */
    var cards: seq<Card>
    /** The labels of the page controls in the link list, left to right. */
    var links: seq<nat>
    /** Position in `links` of the control carrying the "active" class. */
    var active: nat
    /** Whether the pagination region is displayed. */
    var paginationVisible: bool
    /** Whether the "No result" notice is on the page. */
    var noResult: bool
    /** The list the most recent non-empty addPagination was given; its click handler
        renders pages of this list. */
    var linkedList: seq<Student>

    /** The controls are the labels 1..PageCount of the list they were built for, the
        active marker is on one of them, and a visible region has controls. */
    ghost predicate Valid()
      reads this
    {
      links == Labels(PageCount(|linkedList|)) &&
      (links != [] ==> active < |links|) &&
      (paginationVisible ==> links != [])
    }

    /** What holds between events: the controls are well formed, the clickable list is
        the dataset or a filtered part of it, the notice only accompanies an empty page
        and a hidden region, and a visible region's active control names the page shown. */
    ghost predicate Coherent()
      reads this
    {
      Valid() &&
      IsSubsequence(linkedList, data) &&
      (noResult ==> cards == [] && !paginationVisible) &&
      (paginationVisible ==> cards == Render(linkedList, links[active]))
    }

    /** Page load: the full dataset at page 1 with its controls. */
    constructor (data: seq<Student>)
      ensures this.data == data && Coherent()
      ensures cards == Render(data, 1) && !noResult
      ensures data != [] ==> paginationVisible && links == Labels(PageCount(|data|)) &&
                             active == 0 && linkedList == data
      ensures data == [] ==> !paginationVisible && links == [] && linkedList == []
    {
      this.data := data;
      cards, links, active := [], [], 0;
      paginationVisible, noResult := false, false;
      linkedList := [];
      new;
      ShowPage(data, 1);
      assert Labels(PageCount(0)) == [];
      AddPagination(data);
      SelfSubsequence(data);
      if data != [] {
        assert PageCount(|data|) > 0 && links[0] == 1;
        assert cards == Render(linkedList, links[active]);
      }
    }

    /** showPage: removes the notice, empties the container, then appends one card for
        each index of `list` inside the page window; `list` itself is only read. */
    method ShowPage(list: seq<Student>, page: nat)
      requires page >= 1
      modifies this`cards, this`noResult
      ensures cards == Render(list, page) && !noResult
    {
      var startIndex := page * PageSize - PageSize;
      var endIndex := page * PageSize;
      noResult := false;
      cards := [];
      for i := 0 to |list|
        invariant !noResult
        invariant |cards| == Min(endIndex, i) - Min(startIndex, i)
        invariant forall k :: 0 <= k < |cards| ==> cards[k] == CardOf(list[startIndex + k])
      {
        if startIndex <= i < endIndex {
          cards := cards + [CardOf(list[i])];
        }
      }
      ghost var expected := Render(list, page);
      assert |cards| == |expected|;
      assert forall k :: 0 <= k < |cards| ==> cards[k] == expected[k];
    }

    /** addPagination: for a non-empty list, shows the region and rebuilds the controls
        1..PageCount(|list|) with the first one active, and from then on clicks render
        pages of `list`; for an empty list it only hides the region. */
    method AddPagination(list: seq<Student>)
      requires Valid()
      modifies this`links, this`active, this`paginationVisible, this`linkedList
      ensures Valid()
      ensures list != [] ==> paginationVisible && links == Labels(PageCount(|list|)) &&
                             active == 0 && linkedList == list
      ensures list == [] ==> !paginationVisible && links == old(links) &&
                             active == old(active) && linkedList == old(linkedList)
    {
      if |list| > 0 {
        paginationVisible := true;
        var numberOfPage := (|list| + PageSize - 1) / PageSize;
        links := [];
        for i := 1 to numberOfPage + 1
          invariant links == Labels(i - 1) && paginationVisible
        {
          assert Labels(i - 1) + [i] == Labels(i);
          links := links + [i];
        }
        active := 0;
        linkedList := list;
      } else {
        paginationVisible := false;
      }
    }

    /** A click in the control list. On a control's button: the marker leaves the old
        control and lands on the clicked one, and the page the label names is rendered
        from the list the controls were built for; the controls themselves are kept.
        Anywhere else: nothing happens. */
    method ClickOn(target: Target)
      requires Coherent()
      requires target.ControlButton? ==> target.index < |links|
      modifies this
      ensures Coherent()
      ensures links == old(links) && linkedList == old(linkedList)
      ensures paginationVisible == old(paginationVisible)
      ensures target.Elsewhere? ==>
        cards == old(cards) && active == old(active) && noResult == old(noResult)
      ensures target.ControlButton? ==>
        active == target.index && cards == Render(linkedList, links[active]) && !noResult
    {
      if target.ControlButton? {
        active := target.index;
        ShowPage(linkedList, links[target.index]);
      }
    }

    /** The search-input handler. A non-empty query of letters and digits filters the
        dataset and shows page 1 of the result with controls for it, adding the notice
        when nothing matched; any other value shows page 1 of the whole dataset with
        its controls and no notice. */
    method UpdateStudents(value: string)
      requires Coherent()
      modifies this
      ensures Coherent()
      ensures var searching := value != [] && ValidateInput(value);
        var shown := if searching then FilterItems(data, value).list else data;
        cards == Render(shown, 1) &&
        (noResult <==> searching && shown == []) &&
        (shown != [] ==> paginationVisible && links == Labels(PageCount(|shown|)) &&
                         active == 0 && linkedList == shown) &&
        (shown == [] ==> !paginationVisible && links == old(links) &&
                         active == old(active) && linkedList == old(linkedList))
    {
      if value != [] && ValidateInput(value) {
        var list := FilterItems(data, value).list;
        if |list| > 0 {
          ShowPage(list, 1);
          AddPagination(list);
        } else {
          ShowPage(list, 1);
          AddPagination(list);
          noResult := true;
        }
      } else {
        ShowPage(data, 1);
        AddPagination(data);
        SelfSubsequence(data);
      }
    }
  }

  /** Twenty records: page 1 shows records 0..8, a click on the second control shows
      9..17, a click on the third shows 18 and 19, and there are three controls. */
  method TwentyRecords(data: seq<Student>) returns (controls: nat, first: seq<Card>, second: seq<Card>, third: seq<Card>)
    requires |data| == 20
    ensures controls == 3
    ensures first == Cards(data[0..9]) && second == Cards(data[9..18]) && third == Cards(data[18..20])
  {
    assert |Labels(PageCount(|data|))| == 3;
    var view := new ViewState(data);
    controls := |view.links|;
    first := view.cards;
    assert PageWindow(data, 1) == data[0..9];
    view.ClickOn(ControlButton(1));
    second := view.cards;
    assert PageWindow(data, 2) == data[9..18];
    view.ClickOn(ControlButton(2));
    third := view.cards;
    assert PageWindow(data, 3) == data[18..20];
  }

  /** A valid query that no name contains: the page shows no card, the pagination
      region is hidden and the notice is shown. */
  method NoMatch(data: seq<Student>, query: string) returns (shown: nat, visible: bool, notice: bool)
    requires query != [] && ValidateInput(query)
    requires forall x :: x in data ==> !NameMatches(x, query)
    ensures shown == 0 && !visible && notice
  {
    var view := new ViewState(data);
    view.UpdateStudents(query);
    NothingFound(data, query);
    shown, visible, notice := |view.cards|, view.paginationVisible, view.noResult;
  }

  /** Searching and then clearing the field brings back the page-load view: page 1 of
      the dataset, the full set of controls with the first one active, and no notice. */
  method SearchThenClear(data: seq<Student>, query: string)
    returns (shown: seq<Card>, controls: seq<nat>, activeIndex: nat, notice: bool)
    requires data != []
    ensures shown == Render(data, 1) && controls == Labels(PageCount(|data|))
    ensures activeIndex == 0 && !notice
  {
    var view := new ViewState(data);
    view.UpdateStudents(query);
    view.UpdateStudents("");
    shown, controls, activeIndex, notice := view.cards, view.links, view.active, view.noResult;
  }
}
