/** The quality menu of the player settings: which quality entries are
    listed, how each one is marked, whether the automatic-quality toggle is
    shown, and what choosing an entry or flipping the toggle does to the
    remembered quality preference. Rendering and translations are left out;
    the store's `allQualities` list is a parameter. */
module QualityView {
  import opened Wrappers
  import opened PlayerSource

  /** `alwaysVisibleQualities`: every concrete resolution, not `unknown`. */
  predicate AlwaysVisible(q: Quality) {
    match q
    case Unknown => false
    case Q360 => true
    case Q480 => true
    case Q720 => true
    case Q1080 => true
    case Q4k => true
  }

  predicate Shown(q: Quality, available: seq<Quality>) {
    AlwaysVisible(q) || q in available
  }

  /** `r` is `s` with some elements dropped, order kept. */
  ghost predicate IsSubsequence(r: seq<Quality>, s: seq<Quality>) {
    r == [] || (s != [] && ((r[0] == s[0] && IsSubsequence(r[1..], s[1..])) || IsSubsequence(r, s[1..])))
  }

  predicate Distinct(s: seq<Quality>) {
    forall i, j | 0 <= i < j < |s| :: s[i] != s[j]
  }

  /** `visibleQualities`: `allQualities` filtered by the two visibility rules. */
  function VisibleQualities(all: seq<Quality>, available: seq<Quality>): (r: seq<Quality>)
    ensures IsSubsequence(r, all)
    ensures forall q :: q in r <==> q in all && Shown(q, available)
  {
    if all == [] then []
    else
      var rest := VisibleQualities(all[1..], available);
      assert all == [all[0]] + all[1..];
      if Shown(all[0], available) then
        assert ([all[0]] + rest)[1..] == rest;
        [all[0]] + rest
      else rest
  }

  /** The filter keeps every occurrence of a shown quality and none of a
      hidden one. */
  lemma {:induction false} VisibleCounts(all: seq<Quality>, available: seq<Quality>, q: Quality)
    ensures multiset(VisibleQualities(all, available))[q] == if Shown(q, available) then multiset(all)[q] else 0
  {
    if all != [] {
      VisibleCounts(all[1..], available, q);
      assert all == [all[0]] + all[1..];
    }
  }

  lemma {:induction false} VisibleDistinct(all: seq<Quality>, available: seq<Quality>)
    requires Distinct(all)
    ensures Distinct(VisibleQualities(all, available))
  {
    if all != [] {
      VisibleDistinct(all[1..], available);
      var rest := VisibleQualities(all[1..], available);
      assert all[0] !in all[1..];
      assert all[0] !in rest;
    }
  }

  /** One `SelectableLink` of the menu. */
  datatype Entry = Entry(quality: Quality, selected: bool, clickable: bool, disabled: bool)

  function EntryFor(v: Quality, current: Option<Quality>, available: seq<Quality>): Entry {
    Entry(v, current == Some(v), v in available, v !in available)
  }

  function EntriesFor(vs: seq<Quality>, current: Option<Quality>, available: seq<Quality>): (es: seq<Entry>)
    ensures |es| == |vs|
    ensures forall i | 0 <= i < |vs| :: es[i] == EntryFor(vs[i], current, available)
  {
    if vs == [] then [] else [EntryFor(vs[0], current, available)] + EntriesFor(vs[1..], current, available)
  }

  /** The whole menu: the entries, and the automatic-quality toggle with
      its state when it is shown. */
  datatype Menu = Menu(entries: seq<Entry>, autoToggle: Option<bool>)

  /** `supportsAutoQuality` */
  predicate SupportsAutoQuality(sourceType: Option<SourceType>) {
    sourceType == Some(HlsType)
  }

  function QualityMenu(all: seq<Quality>, available: seq<Quality>, current: Option<Quality>,
                       sourceType: Option<SourceType>, autoQuality: bool): (m: Menu)
    ensures m.autoToggle.Some? <==> sourceType == Some(HlsType)
    ensures m.autoToggle.Some? ==> m.autoToggle.value == autoQuality
    ensures forall i | 0 <= i < |m.entries| ::
      m.entries[i].quality in all && Shown(m.entries[i].quality, available)
    ensures forall i | 0 <= i < |m.entries| ::
      (m.entries[i].clickable <==> m.entries[i].quality in available) &&
      m.entries[i].disabled == !m.entries[i].clickable &&
      (m.entries[i].selected <==> current == Some(m.entries[i].quality))
    ensures |m.entries| == |VisibleQualities(all, available)|
    ensures forall i | 0 <= i < |m.entries| :: m.entries[i].quality == VisibleQualities(all, available)[i]
  {
    var vs := VisibleQualities(all, available);
    assert forall i | 0 <= i < |vs| :: vs[i] in vs;
    Menu(EntriesFor(vs, current, available), if SupportsAutoQuality(sourceType) then Some(autoQuality) else None)
  }

  /** Every concrete resolution is listed, whether or not the source has it;
      `unknown` is listed exactly when the source offers it. */
  lemma ListedQualities(all: seq<Quality>, available: seq<Quality>, current: Option<Quality>,
                        sourceType: Option<SourceType>, autoQuality: bool, q: Quality)
    requires q in all
    ensures (exists i | 0 <= i < |QualityMenu(all, available, current, sourceType, autoQuality).entries| ::
               QualityMenu(all, available, current, sourceType, autoQuality).entries[i].quality == q)
        <==> (q != Unknown || q in available)
  {
    var vs := VisibleQualities(all, available);
    var es := QualityMenu(all, available, current, sourceType, autoQuality).entries;
    if q != Unknown || q in available {
      var i :| 0 <= i < |vs| && vs[i] == q;
      assert es[i].quality == q;
    }
  }

  /** With distinct labels in `allQualities`, at most one entry is marked
      selected, and one is exactly when the current quality is listed. */
  lemma AtMostOneSelected(all: seq<Quality>, available: seq<Quality>, current: Option<Quality>,
                          sourceType: Option<SourceType>, autoQuality: bool)
    requires Distinct(all)
    ensures forall i, j | 0 <= i < |QualityMenu(all, available, current, sourceType, autoQuality).entries|
                       && 0 <= j < |QualityMenu(all, available, current, sourceType, autoQuality).entries| ::
      (QualityMenu(all, available, current, sourceType, autoQuality).entries[i].selected &&
       QualityMenu(all, available, current, sourceType, autoQuality).entries[j].selected) ==> i == j
    ensures (exists i | 0 <= i < |QualityMenu(all, available, current, sourceType, autoQuality).entries| ::
               QualityMenu(all, available, current, sourceType, autoQuality).entries[i].selected)
        <==> (current.Some? && current.value in all && Shown(current.value, available))
  {
    var vs := VisibleQualities(all, available);
    VisibleDistinct(all, available);
    var es := QualityMenu(all, available, current, sourceType, autoQuality).entries;
    if current.Some? && current.value in all && Shown(current.value, available) {
      var i :| 0 <= i < |vs| && vs[i] == current.value;
      assert es[i].selected;
    }
  }

  /** A list of qualities that are all shown passes the filter unchanged. */
  lemma {:induction false} VisibleAllShown(all: seq<Quality>, available: seq<Quality>)
    requires forall i | 0 <= i < |all| :: Shown(all[i], available)
    ensures VisibleQualities(all, available) == all
  {
    if all != [] {
      VisibleAllShown(all[1..], available);
      assert all == [all[0]] + all[1..];
    }
  }

  /** A source offering only 720p and 1080p still lists every concrete
      resolution, and `unknown` stays hidden. */
  lemma VisibleExample()
    ensures VisibleQualities([Unknown, Q360, Q480, Q720, Q1080, Q4k], [Q720, Q1080]) == [Q360, Q480, Q720, Q1080, Q4k]
  {
    var all, available := [Unknown, Q360, Q480, Q720, Q1080, Q4k], [Q720, Q1080];
    assert !Shown(all[0], available);
    VisibleAllShown(all[1..], available);
    assert all[1..] == [Q360, Q480, Q720, Q1080, Q4k];
  }

  /** Effects the menu asks of the player store. */
  datatype PlayerEffect = SwitchQuality(quality: Quality) | EnableAutomaticQuality

  /** The remembered quality preference the menu updates. */
  class QualityPreferences {
    var automaticQuality: bool
    var lastChosenQuality: Option<Quality>

    constructor (automatic: bool, lastChosen: Option<Quality>)
      ensures automaticQuality == automatic && lastChosenQuality == lastChosen
    {
      automaticQuality := automatic;
      lastChosenQuality := lastChosen;
    }

    /** `change(q)`: remember `q` and switch to it; automatic mode is left
        as it was. */
    method Change(q: Quality) returns (effect: PlayerEffect)
      modifies this
      ensures lastChosenQuality == Some(q)
      ensures automaticQuality == old(automaticQuality)
      ensures effect == SwitchQuality(q)
    {
      lastChosenQuality := Some(q);
      effect := SwitchQuality(q);
    }

    /** `changeAutomatic()`: flip automatic mode; turning it on also asks
        the player to enable it. */
    method ChangeAutomatic() returns (effect: Option<PlayerEffect>)
      modifies this
      ensures automaticQuality == !old(automaticQuality)
      ensures lastChosenQuality == old(lastChosenQuality)
      ensures effect.Some? <==> automaticQuality
      ensures effect.Some? ==> effect.value == EnableAutomaticQuality
    {
      var newValue := !automaticQuality;
      automaticQuality := newValue;
      effect := if newValue then Some(EnableAutomaticQuality) else None;
    }

    /** A click on a menu entry: only entries of available qualities have
        a handler. */
    method Click(e: Entry) returns (effect: Option<PlayerEffect>)
      modifies this
      ensures e.clickable ==> lastChosenQuality == Some(e.quality) && effect == Some(SwitchQuality(e.quality))
      ensures !e.clickable ==> lastChosenQuality == old(lastChosenQuality) && effect.None?
      ensures automaticQuality == old(automaticQuality)
    {
      if e.clickable {
        var sw := Change(e.quality);
        effect := Some(sw);
      } else {
        effect := None;
      }
    }
  }

  /** Flipping the toggle twice restores the preference; exactly one of the
      two flips asks the player to enable automatic quality. */
  method ToggleTwice(p: QualityPreferences) returns (first: Option<PlayerEffect>, second: Option<PlayerEffect>)
    modifies p
    ensures p.automaticQuality == old(p.automaticQuality)
    ensures p.lastChosenQuality == old(p.lastChosenQuality)
    ensures first.Some? != second.Some?
    ensures second.Some? <==> old(p.automaticQuality)
  {
    first := p.ChangeAutomatic();
    second := p.ChangeAutomatic();
  }
}
