/**
 * The MultiSelect button-group component of
 * public/js/components/multiselect/multi_select.js. A button is reduced to
 * its id, caption, the item index its click handler captured, and whether it
 * carries the "selected" class. Dispatched events are recorded with a
 * snapshot of their payload.
 */
module MultiSelectWidget {
  import opened Wrappers
  import opened Strings

  /** An item; caption is its `label` property. */
  datatype Item = Item(caption: string)

  datatype Button = Button(id: string, caption: string, index: nat, selected: bool)

  /** The options object given to the constructor; None is a key that was not given. */
  datatype Options = Options(
    isMultiSelect: Option<bool>,
    items: Option<seq<Item>>,
    selectedIndeces: Option<seq<int>>,
    selectedIndex: Option<int>)

  datatype Event =
    | OnLoad(items: seq<Item>, selectedIndex: int, selectedIndeces: seq<int>, buttons: seq<Button>)
    | OnSelectedIndexChanged(buttons: seq<Button>, items: seq<Item>, selectedIndex: int, selectedIndeces: seq<int>)

  const DefaultIsMultiSelect := true
  const DefaultItems: seq<Item> := []
  const DefaultSelectedIndeces: seq<int> := [0]
  const DefaultSelectedIndex := 0

  const ErrorMultiIndex := "You cannot set a single index for multi-selection."
  const ErrorOutOfBounds := "Index out of bounds"
  const ErrorSingleIndeces := "Cannot set multiple indices in single-select mode"

  // ---------------------------------------------------------------------
  // Button ids.
  // ---------------------------------------------------------------------

  /** The id `btn{index}_{caption}` of a rendered button. */
  function ButtonId(index: nat, caption: string): (id: string)
    ensures |id| >= 5 + |caption| && id[..3] == "btn"
    ensures id[|id| - |caption| - 1] == '_' && id[|id| - |caption|..] == caption
  {
    "btn" + NatToString(index) + "_" + caption
  }

  /** The position of the first '_' in s, or |s|. */
  function UnderscoreAt(s: string): nat {
    if s == [] || s[0] == '_' then 0 else 1 + UnderscoreAt(s[1..])
  }

  lemma {:induction false} UnderscoreAfterDigits(d: string, r: string)
    requires AllDigits(d)
    ensures UnderscoreAt(d + "_" + r) == |d|
  {
    if d != [] {
      assert (d + "_" + r)[1..] == d[1..] + "_" + r;
      UnderscoreAfterDigits(d[1..], r);
    }
  }

  lemma DigitsThenUnderscore(d1: string, r1: string, d2: string, r2: string)
    requires AllDigits(d1) && AllDigits(d2)
    requires d1 + "_" + r1 == d2 + "_" + r2
    ensures d1 == d2 && r1 == r2
  {
    var u1, u2 := d1 + "_" + r1, d2 + "_" + r2;
    UnderscoreAfterDigits(d1, r1);
    UnderscoreAfterDigits(d2, r2);
    assert d1 == u1[..|d1|] && d2 == u2[..|d2|];
    assert r1 == u1[|d1| + 1..] && r2 == u2[|d2| + 1..];
  }

  lemma StripPrefix(p: string, u: string, v: string)
    requires p + u == p + v
    ensures u == v
  {
    assert u == (p + u)[|p|..] && v == (p + v)[|p|..];
  }

  /** Distinct items get distinct button ids: the id determines index and caption. */
  lemma ButtonIdInjective(i: nat, a: string, j: nat, b: string)
    requires ButtonId(i, a) == ButtonId(j, b)
    ensures i == j && a == b
  {
    var di, dj := NatToString(i), NatToString(j);
    assert ButtonId(i, a) == "btn" + (di + "_" + a);
    assert ButtonId(j, b) == "btn" + (dj + "_" + b);
    StripPrefix("btn", di + "_" + a, dj + "_" + b);
    DigitsThenUnderscore(di, a, dj, b);
    NatToStringInjective(i, j);
  }

  /** The buttons #renderItems creates for the items, unselected, in item order. */
  function RenderButtons(items: seq<Item>): (bs: seq<Button>)
    ensures |bs| == |items|
  {
    seq(|items|, i requires 0 <= i < |items| => Button(ButtonId(i, items[i].caption), items[i].caption, i, false))
  }

  /** Every rendered button has its own id. */
  lemma RenderedIdsDistinct(items: seq<Item>, i: nat, j: nat)
    requires i < j < |items|
    ensures RenderButtons(items)[i].id != RenderButtons(items)[j].id
  {
    if RenderButtons(items)[i].id == RenderButtons(items)[j].id {
      ButtonIdInjective(i, items[i].caption, j, items[j].caption);
    }
  }

  // ---------------------------------------------------------------------
  // Selection flags.
  // ---------------------------------------------------------------------

  /** classList.toggle on one button. */
  function Toggle(bs: seq<Button>, pos: nat): (r: seq<Button>)
    requires pos < |bs|
    ensures |r| == |bs|
  {
    bs[pos := bs[pos].(selected := !bs[pos].selected)]
  }

  /** #toggleSingleSelection: clear every button, then flag the one at pos. */
  function SelectOnly(bs: seq<Button>, pos: nat): (r: seq<Button>)
    requires pos < |bs|
    ensures |r| == |bs|
  {
    seq(|bs|, j requires 0 <= j < |bs| => bs[j].(selected := j == pos))
  }

  /** Exactly the button at pos is flagged. */
  predicate ExclusiveAt(bs: seq<Button>, pos: int) {
    forall j :: 0 <= j < |bs| ==> (bs[j].selected <==> j == pos)
  }

  /** Selecting a button leaves exactly that one flagged and changes nothing but flags. */
  lemma SelectOnlyIsExclusive(bs: seq<Button>, pos: nat)
    requires pos < |bs|
    ensures ExclusiveAt(SelectOnly(bs, pos), pos)
    ensures forall j :: 0 <= j < |bs| ==> SelectOnly(bs, pos)[j].(selected := false) == bs[j].(selected := false)
  {
  }

  /** A repeated single-mode click on the already selected button changes no flag. */
  lemma SelectOnlyOfExclusive(bs: seq<Button>, pos: nat)
    requires pos < |bs| && ExclusiveAt(bs, pos)
    ensures SelectOnly(bs, pos) == bs
  {
    forall j | 0 <= j < |bs| ensures SelectOnly(bs, pos)[j] == bs[j] {
      assert bs[j].selected == (j == pos);
    }
  }

  /** Toggling the same button twice restores the flags. */
  lemma ToggleTwice(bs: seq<Button>, pos: nat)
    requires pos < |bs|
    ensures Toggle(Toggle(bs, pos), pos) == bs
  {
  }

  /** The initial multi-mode pass: toggle once per listed index that names a button. */
  function ToggleAll(bs: seq<Button>, indeces: seq<int>): (r: seq<Button>)
    ensures |r| == |bs|
  {
    if indeces == [] then bs
    else
      var prev := ToggleAll(bs, indeces[..|indeces| - 1]);
      var index := indeces[|indeces| - 1];
      if 0 <= index < |prev| then Toggle(prev, index) else prev
  }

  /**
   * After the initial pass a button's flag is flipped exactly when its
   * position is listed an odd number of times; nothing else changes.
   */
  lemma {:induction false} ToggleAllFlags(bs: seq<Button>, indeces: seq<int>, j: nat)
    requires j < |bs|
    ensures ToggleAll(bs, indeces)[j].selected == (bs[j].selected != (multiset(indeces)[j] % 2 == 1))
    ensures ToggleAll(bs, indeces)[j].(selected := false) == bs[j].(selected := false)
  {
    if indeces != [] {
      var init, last := indeces[..|indeces| - 1], indeces[|indeces| - 1];
      ToggleAllFlags(bs, init, j);
      assert indeces == init + [last];
      assert multiset(indeces) == multiset(init) + multiset{last};
    }
  }

  // ---------------------------------------------------------------------
  // The selected-index list in multi mode.
  // ---------------------------------------------------------------------

  /** Array.prototype.indexOf: the first position of x, or -1. */
  function IndexOf(s: seq<int>, x: int): (r: int)
    ensures r == -1 <==> x !in s
    ensures r != -1 ==> 0 <= r < |s| && s[r] == x && x !in s[..r]
  {
    if s == [] then -1
    else if s[0] == x then 0
    else
      var k := IndexOf(s[1..], x);
      if k == -1 then -1 else k + 1
  }

  /** A multi-mode click on item k: splice out its first occurrence, or push it. */
  function ToggleMember(s: seq<int>, k: int): (r: seq<int>)
    ensures k in s ==> exists i :: 0 <= i < |s| && s[i] == k && k !in s[..i] && r == s[..i] + s[i + 1..]
    ensures k in s ==> multiset(r) == multiset(s) - multiset{k}
    ensures k !in s ==> r == s + [k]
  {
    var i := IndexOf(s, k);
    if i > -1 then
      assert s == s[..i] + [k] + s[i + 1..];
      s[..i] + s[i + 1..]
    else s + [k]
  }

  /**
   * Clicking the same button twice restores the selected indices as a
   * multiset (the list order may change), provided the index was listed at
   * most once.
   */
  lemma ToggleMemberTwice(s: seq<int>, k: int)
    requires multiset(s)[k] <= 1
    ensures multiset(ToggleMember(ToggleMember(s, k), k)) == multiset(s)
    ensures k !in s ==> ToggleMember(ToggleMember(s, k), k) == s
  {
    if k in s {
      var t := ToggleMember(s, k);
      assert multiset(t)[k] == 0;
      assert k !in t;
    } else {
      var t := s + [k];
      assert IndexOf(t, k) == |s| by {
        assert t[|s|] == k && t[..|s|] == s;
      }
      assert t[..|s|] + t[|s| + 1..] == s;
    }
  }

  /** With an index listed twice, two clicks drop it from the list. */
  lemma ToggleMemberTwiceWithDuplicate()
    ensures ToggleMember(ToggleMember([0, 0], 0), 0) == []
  {
    assert IndexOf([0, 0], 0) == 0;
    assert [0, 0][1..] == [0];
    assert IndexOf([0], 0) == 0;
  }

  // ---------------------------------------------------------------------
  // The component.
  // ---------------------------------------------------------------------

  class MultiSelect {
    var isMultiSelect: bool
    var items: seq<Item>
    var selectedIndeces: seq<int>
    var selectedIndex: int
    var buttons: seq<Button>
    /** The events the component dispatched, oldest first. */
    var dispatched: seq<Event>

    /** Single mode with exactly the button at selectedIndex flagged. */
    predicate SingleSelectionExclusive()
      reads this
    {
      !isMultiSelect && 0 <= selectedIndex < |buttons| && ExclusiveAt(buttons, selectedIndex)
    }

    /** Every button sits at the position of the item whose index it captured. */
    predicate RenderedOnce()
      reads this
    {
      forall j :: 0 <= j < |buttons| ==> buttons[j].index == j
    }

    /** Merges the options over the defaults; no buttons exist yet. */
    constructor(options: Option<Options>)
      ensures var opts := options.GetOr(Options(None, None, None, None));
        && isMultiSelect == opts.isMultiSelect.GetOr(DefaultIsMultiSelect)
        && items == opts.items.GetOr(DefaultItems)
        && selectedIndeces == opts.selectedIndeces.GetOr(DefaultSelectedIndeces)
        && selectedIndex == opts.selectedIndex.GetOr(DefaultSelectedIndex)
      ensures buttons == [] && dispatched == []
    {
      var opts := options.GetOr(Options(None, None, None, None));
      isMultiSelect := opts.isMultiSelect.GetOr(DefaultIsMultiSelect);
      items := opts.items.GetOr(DefaultItems);
      selectedIndeces := opts.selectedIndeces.GetOr(DefaultSelectedIndeces);
      selectedIndex := opts.selectedIndex.GetOr(DefaultSelectedIndex);
      buttons := [];
      dispatched := [];
    }

    /** The selectedIndex setter. */
    method SetSelectedIndex(index: int) returns (outcome: Outcome<string>)
      modifies this
      ensures outcome == if old(isMultiSelect) then Fail(ErrorMultiIndex)
                         else if index < 0 || index >= |old(items)| then Fail(ErrorOutOfBounds)
                         else Pass
      ensures selectedIndex == if outcome.Pass? then index else old(selectedIndex)
      ensures isMultiSelect == old(isMultiSelect) && items == old(items)
      ensures selectedIndeces == old(selectedIndeces) && buttons == old(buttons)
      ensures dispatched == old(dispatched)
    {
      if isMultiSelect {
        return Fail(ErrorMultiIndex);
      }
      if index < 0 || index >= |items| {
        return Fail(ErrorOutOfBounds);
      }
      selectedIndex := index;
      outcome := Pass;
    }

    /** The selectedIndeces setter: replaces the list, unchecked. */
    method SetSelectedIndeces(indeces: seq<int>) returns (outcome: Outcome<string>)
      modifies this
      ensures outcome == if old(isMultiSelect) then Pass else Fail(ErrorSingleIndeces)
      ensures selectedIndeces == if outcome.Pass? then indeces else old(selectedIndeces)
      ensures isMultiSelect == old(isMultiSelect) && items == old(items)
      ensures selectedIndex == old(selectedIndex) && buttons == old(buttons)
      ensures dispatched == old(dispatched)
    {
      if !isMultiSelect {
        return Fail(ErrorSingleIndeces);
      }
      selectedIndeces := indeces;
      outcome := Pass;
    }

    /** The isMultiSelect setter: switches mode without touching buttons. */
    method SetIsMultiSelect(multi: bool)
      modifies this
      ensures isMultiSelect == multi
      ensures items == old(items) && selectedIndeces == old(selectedIndeces)
      ensures selectedIndex == old(selectedIndex) && buttons == old(buttons)
      ensures dispatched == old(dispatched)
    {
      isMultiSelect := multi;
    }

    /** The items setter: the buttons are not re-rendered. */
    method SetItems(arrayItems: seq<Item>)
      modifies this
      ensures items == arrayItems
      ensures isMultiSelect == old(isMultiSelect) && selectedIndeces == old(selectedIndeces)
      ensures selectedIndex == old(selectedIndex) && buttons == old(buttons)
      ensures dispatched == old(dispatched)
    {
      items := arrayItems;
    }

    /** #renderItems: pushes one new button per item onto the button list. */
    method RenderItems()
      modifies this
      ensures buttons == old(buttons) + RenderButtons(old(items))
      ensures isMultiSelect == old(isMultiSelect) && items == old(items)
      ensures selectedIndeces == old(selectedIndeces) && selectedIndex == old(selectedIndex)
      ensures dispatched == old(dispatched)
    {
      var i := 0;
      while i < |items|
        invariant 0 <= i <= |items|
        invariant buttons == old(buttons) + RenderButtons(items)[..i]
        invariant isMultiSelect == old(isMultiSelect) && items == old(items)
        invariant selectedIndeces == old(selectedIndeces) && selectedIndex == old(selectedIndex)
        invariant dispatched == old(dispatched)
      {
        var item := items[i];
        var button := Button(ButtonId(i, item.caption), item.caption, i, false);
        assert RenderButtons(items)[..i + 1] == RenderButtons(items)[..i] + [button];
        buttons := buttons + [button];
        i := i + 1;
      }
      assert RenderButtons(items)[..i] == RenderButtons(items);
    }

    /** #toggleMultiSelection on the button at pos. */
    method ToggleMultiSelection(pos: nat)
      requires pos < |buttons|
      modifies this
      ensures buttons == Toggle(old(buttons), pos)
      ensures isMultiSelect == old(isMultiSelect) && items == old(items)
      ensures selectedIndeces == old(selectedIndeces) && selectedIndex == old(selectedIndex)
      ensures dispatched == old(dispatched)
    {
      buttons := buttons[pos := buttons[pos].(selected := !buttons[pos].selected)];
    }

    /** #toggleSingleSelection: a loop clearing every flag, then flags the button at pos. */
    method ToggleSingleSelection(pos: nat)
      requires pos < |buttons|
      modifies this
      ensures buttons == SelectOnly(old(buttons), pos)
      ensures isMultiSelect == old(isMultiSelect) && items == old(items)
      ensures selectedIndeces == old(selectedIndeces) && selectedIndex == old(selectedIndex)
      ensures dispatched == old(dispatched)
    {
      ghost var before := buttons;
      var j := 0;
      while j < |buttons|
        invariant 0 <= j <= |buttons| == |before|
        invariant forall k :: 0 <= k < j ==> buttons[k] == before[k].(selected := false)
        invariant forall k :: j <= k < |buttons| ==> buttons[k] == before[k]
        invariant isMultiSelect == old(isMultiSelect) && items == old(items)
        invariant selectedIndeces == old(selectedIndeces) && selectedIndex == old(selectedIndex)
        invariant dispatched == old(dispatched)
      {
        buttons := buttons[j := buttons[j].(selected := false)];
        j := j + 1;
      }
      buttons := buttons[pos := buttons[pos].(selected := true)];
    }

    /** The initial-selection flags #init computes from the rendered buttons. */
    static function InitialFlags(rendered: seq<Button>, multi: bool, indeces: seq<int>, index: int): (r: seq<Button>)
      ensures |r| == |rendered|
    {
      if multi then ToggleAll(rendered, indeces)
      else if 0 <= index < |rendered| then SelectOnly(rendered, index)
      else rendered
    }

    /** initializeMultiselect: #init, then dispatch onLoad once. */
    method InitializeMultiselect()
      modifies this
      ensures buttons == InitialFlags(old(buttons) + RenderButtons(old(items)), old(isMultiSelect),
                                      old(selectedIndeces), old(selectedIndex))
      ensures isMultiSelect == old(isMultiSelect) && items == old(items)
      ensures selectedIndeces == old(selectedIndeces) && selectedIndex == old(selectedIndex)
      ensures dispatched == old(dispatched) + [OnLoad(items, selectedIndex, selectedIndeces, buttons)]
      ensures old(buttons) == [] && !isMultiSelect && 0 <= selectedIndex < |items| ==>
                SingleSelectionExclusive() && RenderedOnce()
      ensures old(buttons) == [] && isMultiSelect ==>
                RenderedOnce() && forall j :: 0 <= j < |buttons| ==> (buttons[j].selected <==> multiset(selectedIndeces)[j] % 2 == 1)
    {
      Init();
      dispatched := dispatched + [OnLoad(items, selectedIndex, selectedIndeces, buttons)];
      if old(buttons) == [] {
        var rendered := RenderButtons(items);
        assert old(buttons) + rendered == rendered;
        if isMultiSelect {
          forall j | 0 <= j < |buttons|
            ensures buttons[j].index == j
            ensures buttons[j].selected <==> multiset(selectedIndeces)[j] % 2 == 1
          {
            ToggleAllFlags(rendered, selectedIndeces, j);
          }
        }
      }
    }

    /** #init: render the buttons, then apply the initial selection. */
    method Init()
      modifies this
      ensures buttons == InitialFlags(old(buttons) + RenderButtons(old(items)), old(isMultiSelect),
                                      old(selectedIndeces), old(selectedIndex))
      ensures isMultiSelect == old(isMultiSelect) && items == old(items)
      ensures selectedIndeces == old(selectedIndeces) && selectedIndex == old(selectedIndex)
      ensures dispatched == old(dispatched)
    {
      RenderItems();
      ghost var rendered := buttons;
      if isMultiSelect {
        var n := 0;
        while n < |selectedIndeces|
          invariant 0 <= n <= |selectedIndeces|
          invariant buttons == ToggleAll(rendered, selectedIndeces[..n])
          invariant isMultiSelect == old(isMultiSelect) && items == old(items)
          invariant selectedIndeces == old(selectedIndeces) && selectedIndex == old(selectedIndex)
          invariant dispatched == old(dispatched)
        {
          var index := selectedIndeces[n];
          assert selectedIndeces[..n + 1][..n] == selectedIndeces[..n];
          if 0 <= index < |buttons| {
            ToggleMultiSelection(index);
          }
          n := n + 1;
        }
        assert selectedIndeces[..n] == selectedIndeces;
      } else if selectedIndex > -1 && selectedIndex < |buttons| {
        ToggleSingleSelection(selectedIndex);
      }
    }

    /** The click handler of the button at position pos. */
    method Click(pos: nat)
      requires pos < |buttons|
      modifies this
      ensures var index := old(buttons[pos].index);
        if old(isMultiSelect) then
          && buttons == Toggle(old(buttons), pos)
          && selectedIndeces == ToggleMember(old(selectedIndeces), index)
          && selectedIndex == old(selectedIndex)
        else
          && buttons == SelectOnly(old(buttons), pos)
          && selectedIndex == index
          && selectedIndeces == old(selectedIndeces)
      ensures isMultiSelect == old(isMultiSelect) && items == old(items)
      ensures dispatched == old(dispatched) + [OnSelectedIndexChanged(buttons, items, selectedIndex, selectedIndeces)]
      ensures old(SingleSelectionExclusive() && RenderedOnce()) ==> SingleSelectionExclusive() && RenderedOnce()
      ensures !old(isMultiSelect) && old(RenderedOnce()) ==> SingleSelectionExclusive() && selectedIndex == pos
    {
      var index := buttons[pos].index;
      if isMultiSelect {
        ToggleMultiSelection(pos);
        var i := IndexOf(selectedIndeces, index);
        if i > -1 {
          selectedIndeces := selectedIndeces[..i] + selectedIndeces[i + 1..];
        } else {
          selectedIndeces := selectedIndeces + [index];
        }
      } else {
        ToggleSingleSelection(pos);
        selectedIndex := index;
        SelectOnlyIsExclusive(old(buttons), pos);
      }
      dispatched := dispatched + [OnSelectedIndexChanged(buttons, items, selectedIndex, selectedIndeces)];
    }
  }

  /** In single mode, clicking the selected button again changes no state, but still dispatches. */
  method RepeatedSingleClick(m: MultiSelect, pos: nat)
    requires pos < |m.buttons| && !m.isMultiSelect && m.RenderedOnce()
    modifies m
    ensures m.buttons == old(SelectOnly(m.buttons, pos)) && m.selectedIndex == pos
    ensures |m.dispatched| == |old(m.dispatched)| + 2
    ensures m.dispatched[|m.dispatched| - 1] == m.dispatched[|m.dispatched| - 2]
    ensures m.dispatched[|m.dispatched| - 1] == OnSelectedIndexChanged(m.buttons, m.items, pos, m.selectedIndeces)
    ensures m.dispatched[..|old(m.dispatched)|] == old(m.dispatched)
    ensures m.isMultiSelect == old(m.isMultiSelect) && m.items == old(m.items)
    ensures m.selectedIndeces == old(m.selectedIndeces)
  {
    m.Click(pos);
    ghost var afterFirst := m.buttons;
    m.Click(pos);
    SelectOnlyOfExclusive(afterFirst, pos);
  }
}
