/** The dashboard page: the ordered list of repository names shown as columns, and
    `toggleRepo`, which both the sidebar checkboxes and the column close buttons call. */
module Page {
  import opened Sequences

  /** `prev.filter((r) => r !== name)`. */
  function Without(names: seq<string>, name: string): seq<string>
  {
    if names == [] then []
    else (if names[0] == name then [] else [names[0]]) + Without(names[1..], name)
  }

  /** `prev.includes(name) ? prev.filter((r) => r !== name) : [...prev, name]`. */
  function Toggle(selected: seq<string>, name: string): seq<string>
  {
    if name in selected then Without(selected, name) else selected + [name]
  }

  /** Removing a name drops every occurrence of it and keeps the other names in order. */
  lemma {:induction false} WithoutKeepsOthers(names: seq<string>, name: string)
    ensures forall x :: x in Without(names, name) <==> x in names && x != name
    ensures Subsequence(Without(names, name), names)
  {
    if names != [] {
      WithoutKeepsOthers(names[1..], name);
      assert names == [names[0]] + names[1..];
      if names[0] == name {
        assert Without(names, name) == Without(names[1..], name);
      } else {
        assert Without(names, name) == [names[0]] + Without(names[1..], name);
        assert Without(names, name)[1..] == Without(names[1..], name);
      }
    }
  }

  lemma {:induction false} WithoutAbsent(names: seq<string>, name: string)
    requires name !in names
    ensures Without(names, name) == names
  {
    if names != [] {
      WithoutAbsent(names[1..], name);
      assert names == [names[0]] + names[1..];
    }
  }

  lemma {:induction false} WithoutAppend(names: seq<string>, extra: seq<string>, name: string)
    ensures Without(names + extra, name) == Without(names, name) + Without(extra, name)
  {
    if names != [] {
      assert (names + extra)[1..] == names[1..] + extra;
      WithoutAppend(names[1..], extra, name);
    } else {
      assert names + extra == extra;
    }
  }

  /** After a toggle the toggled name's membership is flipped and every other name's is not
      touched; an absent name lands at the end, a present one leaves every position. */
  lemma ToggleFlips(selected: seq<string>, name: string)
    ensures name in Toggle(selected, name) <==> name !in selected
    ensures forall x :: x != name ==> (x in Toggle(selected, name) <==> x in selected)
    ensures name !in selected ==> Toggle(selected, name) == selected + [name]
    ensures name in selected ==> Subsequence(Toggle(selected, name), selected)
  {
    WithoutKeepsOthers(selected, name);
  }

  ghost predicate NoDuplicates(names: seq<string>)
  {
    forall i, j :: 0 <= i < j < |names| ==> names[i] != names[j]
  }

  lemma {:induction false} WithoutKeepsDistinct(names: seq<string>, name: string)
    requires NoDuplicates(names)
    ensures NoDuplicates(Without(names, name))
  {
    if names != [] {
      WithoutKeepsDistinct(names[1..], name);
      WithoutKeepsOthers(names[1..], name);
      if names[0] != name {
        assert names[0] !in names[1..];
        var r := Without(names, name);
        assert r == [names[0]] + Without(names[1..], name);
        forall i, j | 0 <= i < j < |r| ensures r[i] != r[j] {
          if i == 0 { assert r[j] in Without(names[1..], name); }
        }
      }
    }
  }

  /** A selection without repeats stays without repeats. */
  lemma ToggleKeepsDistinct(selected: seq<string>, name: string)
    requires NoDuplicates(selected)
    ensures NoDuplicates(Toggle(selected, name))
  {
    if name in selected {
      WithoutKeepsDistinct(selected, name);
    }
  }

  /** Toggling an absent name twice gives the original selection back. */
  lemma ToggleTwiceRestores(selected: seq<string>, name: string)
    requires name !in selected
    ensures Toggle(Toggle(selected, name), name) == selected
  {
    WithoutAppend(selected, [name], name);
    WithoutAbsent(selected, name);
    assert Without([name], name) == [];
  }

  /** A column's close button: columns are drawn from the selection, so the column's name is
      selected, and the toggle removes it. */
  function CloseColumn(selected: seq<string>, column: string): (r: seq<string>)
    requires column in selected
    ensures column !in r
    ensures forall x :: x != column ==> (x in r <==> x in selected)
  {
    ToggleFlips(selected, column);
    Toggle(selected, column)
  }
}
