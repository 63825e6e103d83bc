/**
 * The category filter popup: a local multi-selection that the chips toggle,
 * Clear empties, Apply hands to the feed, and opening resets from the feed's
 * current filter.
 */
module CategoryPopup {

  /** `list.filter(k => k !== key)`: every other key, with its multiplicity and order kept. */
  function Without(s: seq<string>, key: string): (r: seq<string>)
    ensures key !in r
    ensures |r| <= |s|
    ensures forall x :: x != key ==> multiset(r)[x] == multiset(s)[x]
  {
    if s == [] then []
    else
      assert s == [s[0]] + s[1..];
      if s[0] == key then Without(s[1..], key) else [s[0]] + Without(s[1..], key)
  }

  /** The new selection after tapping a chip: remove the key if selected, else append it. */
  function Toggled(s: seq<string>, key: string): (r: seq<string>)
    ensures key in r <==> key !in s
    ensures forall x :: x != key ==> (x in r <==> x in s)
  {
    if key in s then
      assert forall x :: x in Without(s, key) <==> multiset(Without(s, key))[x] > 0;
      Without(s, key)
    else s + [key]
  }

  predicate NoDuplicates(s: seq<string>) {
    forall i, j :: 0 <= i < j < |s| ==> s[i] != s[j]
  }

  /** `filter` works element by element: filtering a concatenation filters each part and keeps their order. */
  lemma {:induction false} WithoutKeepsOrder(a: seq<string>, b: seq<string>, key: string)
    ensures Without(a + b, key) == Without(a, key) + Without(b, key)
  {
    if a == [] {
      assert a + b == b;
    } else {
      var head := if a[0] == key then [] else [a[0]];
      assert (a + b)[1..] == a[1..] + b;
      calc {
        Without(a + b, key);
        head + Without(a[1..] + b, key);
        { WithoutKeepsOrder(a[1..], b, key); }
        head + (Without(a[1..], key) + Without(b, key));
        Without(a, key) + Without(b, key);
      }
    }
  }

  /** Without a key the list is unchanged. */
  lemma {:induction false} WithoutAbsent(s: seq<string>, key: string)
    requires key !in s
    ensures Without(s, key) == s
  {
    if s != [] {
      WithoutAbsent(s[1..], key);
    }
  }

  /** Removing a key that occurs once, at position i, closes the gap and keeps the other keys in order. */
  lemma {:induction false} WithoutClosesGap(s: seq<string>, key: string, i: nat)
    requires NoDuplicates(s) && i < |s| && s[i] == key
    ensures Without(s, key) == s[..i] + s[i + 1..]
  {
    if i == 0 {
      assert key !in s[1..];
      WithoutAbsent(s[1..], key);
    } else {
      WithoutClosesGap(s[1..], key, i - 1);
      assert s[..i] == [s[0]] + s[1..][..i - 1];
      assert s[i + 1..] == s[1..][i..];
    }
  }

  /** Removing a key from a duplicate-free list keeps it duplicate-free. */
  lemma {:induction false} WithoutKeepsNoDuplicates(s: seq<string>, key: string)
    requires NoDuplicates(s)
    ensures NoDuplicates(Without(s, key))
  {
    if s != [] {
      WithoutKeepsNoDuplicates(s[1..], key);
      if s[0] != key {
        assert s[0] !in s[1..];
        assert multiset(Without(s[1..], key))[s[0]] == multiset(s[1..])[s[0]] == 0;
      }
    }
  }

  /** Toggling an absent key appends it at the end and leaves the other keys as they were. */
  lemma ToggleAbsentAppends(s: seq<string>, key: string)
    requires key !in s
    ensures Toggled(s, key)[..|s|] == s && Toggled(s, key)[|s|] == key && |Toggled(s, key)| == |s| + 1
  {
  }

  /**
   * On a duplicate-free selection, toggling keeps it duplicate-free and flips
   * exactly the membership of the key.
   */
  lemma ToggleFlipsMembership(s: seq<string>, key: string)
    requires NoDuplicates(s)
    ensures NoDuplicates(Toggled(s, key))
    ensures key in Toggled(s, key) <==> key !in s
    ensures forall x :: x != key ==> (x in Toggled(s, key) <==> x in s)
  {
    if key in s {
      WithoutKeepsNoDuplicates(s, key);
      forall x | x != key ensures x in Toggled(s, key) <==> x in s {
        assert x in Without(s, key) <==> multiset(Without(s, key))[x] > 0;
      }
    }
  }

  /**
   * Toggling the same key twice restores the selected set. The list itself
   * comes back only when the key was absent or already last: a key taken out
   * from the middle is put back at the end.
   */
  lemma ToggleTwice(s: seq<string>, key: string)
    requires NoDuplicates(s)
    ensures forall x :: x in Toggled(Toggled(s, key), key) <==> x in s
    ensures key !in s ==> Toggled(Toggled(s, key), key) == s
    ensures |s| > 0 && s[|s| - 1] == key ==> Toggled(Toggled(s, key), key) == s
  {
    ToggleFlipsMembership(s, key);
    ToggleFlipsMembership(Toggled(s, key), key);
    if key !in s {
      assert key in s + [key];
      WithoutClosesGap(s + [key], key, |s|);
      assert (s + [key])[..|s|] == s;
    } else if |s| > 0 && s[|s| - 1] == key {
      WithoutClosesGap(s, key, |s| - 1);
      assert s[..|s| - 1] + [key] == s;
    }
  }

  /**
   * Toggling twice a key that sits before the end of a duplicate-free list
   * takes it out of its place and puts it back last, so the list changes.
   */
  lemma ToggleTwiceMovesMiddleKey(s: seq<string>, key: string, i: nat)
    requires NoDuplicates(s) && i + 1 < |s| && s[i] == key
    ensures Toggled(Toggled(s, key), key) == s[..i] + s[i + 1..] + [key]
    ensures Toggled(Toggled(s, key), key) != s
  {
    WithoutClosesGap(s, key, i);
    var t := s[..i] + s[i + 1..];
    forall j | 0 <= j < |t| ensures t[j] != key {
      if j < i {
        assert t[j] == s[j];
      } else {
        assert t[j] == s[j + 1];
      }
    }
    assert (t + [key])[i] == s[i + 1] != s[i];
  }

  class Popup {
    /** The `visible` prop, owned by the feed screen. */
    var visible: bool
    var localSelection: seq<string>

    constructor ()
      ensures !visible && localSelection == []
    {
      visible := false;
      localSelection := [];
    }

    /** The feed screen opens the popup. */
    method Open()
      modifies this
      ensures visible && localSelection == old(localSelection)
    {
      visible := true;
    }

    /** The effect on `[visible, selectedCategories]`: an open popup takes over the feed's filter. */
    method SyncOnOpen(selectedCategories: seq<string>)
      modifies this
      ensures visible == old(visible)
      ensures localSelection == if visible then selectedCategories else old(localSelection)
    {
      if visible {
        localSelection := selectedCategories;
      }
    }

    method ToggleCategory(key: string)
      modifies this
      ensures visible == old(visible)
      ensures localSelection == Toggled(old(localSelection), key)
    {
      if key in localSelection {
        localSelection := Without(localSelection, key);
      } else {
        localSelection := localSelection + [key];
      }
    }

    method HandleClear()
      modifies this
      ensures visible == old(visible) && localSelection == []
    {
      localSelection := [];
    }

    /** `onApplyFilter(localSelection)` then `onClose()`: the selection is handed over unchanged and the popup closes. */
    method HandleApply() returns (applied: seq<string>)
      modifies this
      ensures applied == old(localSelection) && localSelection == old(localSelection)
      ensures !visible
    {
      applied := localSelection;
      visible := false;
    }

    method Close()
      modifies this
      ensures !visible && localSelection == old(localSelection)
    {
      visible := false;
    }
  }
}
