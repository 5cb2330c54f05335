/**
 * The dashboard form: the user types a name and toggles disability options;
 * "Submit and Continue" is enabled once both are filled in, and submitting
 * navigates to the page for the most specific need selected.
 */
module Dashboard {
  import opened Text

  const VisualImpairment: string := "Visual Impairment"
  const HearingImpairment: string := "Hearing Impairment"
  const MotorDisability: string := "Motor Disability"
  const LearningDisorder: string := "Learning Disorder"

  /** The four buttons the form offers, in display order. */
  const DisabilityOptions: seq<string> := [VisualImpairment, HearingImpairment, MotorDisability, LearningDisorder]

  /** `l` with every occurrence of `d` removed (`l.filter((x) => x !== d)`). */
  function RemoveAll(l: seq<string>, d: string): (r: seq<string>)
    ensures d !in r
    ensures forall x :: x != d ==> (x in r <==> x in l)
    ensures |r| <= |l|
    ensures |r| == |l| <==> d !in l
  {
    if l == [] then []
    else if l[0] == d then RemoveAll(l[1..], d)
    else [l[0]] + RemoveAll(l[1..], d)
  }

  /** Removing from a concatenation removes from each part, keeping their order. */
  lemma {:induction false} RemoveAllConcat(a: seq<string>, b: seq<string>, d: string)
    ensures RemoveAll(a + b, d) == RemoveAll(a, d) + RemoveAll(b, d)
  {
    if a != [] {
      assert (a + b)[0] == a[0];
      assert (a + b)[1..] == a[1..] + b;
      RemoveAllConcat(a[1..], b, d);
    } else {
      assert a + b == b;
    }
  }

  /** Removing an option that is not there leaves the list as it was. */
  lemma RemoveAllAbsent(l: seq<string>, d: string)
    requires d !in l
    ensures RemoveAll(l, d) == l
  {
    assert |RemoveAll(l, d)| == |l|;
    if l != [] {
      assert l[0] != d;
      assert l == [l[0]] + l[1..];
      RemoveAllAbsent(l[1..], d);
    }
  }

  /** `toggleDisability`: an option already chosen is removed, any other is appended. */
  function ToggleDisability(prev: seq<string>, d: string): (r: seq<string>)
    ensures forall x :: x in r <==> (if x == d then d !in prev else x in prev)
    ensures d !in prev ==> r == prev + [d]
    ensures d in prev ==> |r| < |prev|
    ensures d in prev ==> r == RemoveAll(prev, d)
  {
    if d in prev then RemoveAll(prev, d) else prev + [d]
  }

  /** Toggling an option that was not chosen, then toggling it again, gives back the original list. */
  lemma ToggleTwiceRestores(l: seq<string>, d: string)
    requires d !in l
    ensures ToggleDisability(ToggleDisability(l, d), d) == l
  {
    RemoveAllConcat(l, [d], d);
    RemoveAllAbsent(l, d);
    assert RemoveAll([d], d) == [];
  }

  predicate NoDuplicates(l: seq<string>) {
    forall i, j :: 0 <= i < j < |l| ==> l[i] != l[j]
  }

  lemma {:induction false} RemoveAllKeepsNoDuplicates(l: seq<string>, d: string)
    requires NoDuplicates(l)
    ensures NoDuplicates(RemoveAll(l, d))
  {
    if l != [] {
      assert NoDuplicates(l[1..]) by {
        forall i, j | 0 <= i < j < |l[1..]| ensures l[1..][i] != l[1..][j] {
          assert l[1..][i] == l[i + 1] && l[1..][j] == l[j + 1];
        }
      }
      RemoveAllKeepsNoDuplicates(l[1..], d);
      var rest := RemoveAll(l[1..], d);
      assert l[0] !in l[1..];
      assert l[0] !in rest;
    }
  }

  /** Toggling never introduces a duplicate into a list that has none. */
  lemma ToggleKeepsNoDuplicates(l: seq<string>, d: string)
    requires NoDuplicates(l)
    ensures NoDuplicates(ToggleDisability(l, d))
  {
    if d in l {
      RemoveAllKeepsNoDuplicates(l, d);
    }
  }

  /** The selection after a series of button presses, starting from `prev`. */
  function Toggles(prev: seq<string>, presses: seq<string>): seq<string>
    decreases |presses|
  {
    if presses == [] then prev else Toggles(ToggleDisability(prev, presses[0]), presses[1..])
  }

  /** One more press flips whether an option was pressed an odd number of times. */
  lemma OneMoreFlipsParity(n: nat)
    ensures ((n + 1) % 2 == 1) == (n % 2 != 1)
  {
  }

  /** After a series of presses an option is selected exactly when it was selected before
    * or was pressed an odd number of times, but not both. */
  lemma {:induction false} TogglesParity(prev: seq<string>, presses: seq<string>, x: string)
    ensures x in Toggles(prev, presses) <==> ((x in prev) != (multiset(presses)[x] % 2 == 1))
    decreases |presses|
  {
    if presses != [] {
      var d, next := presses[0], ToggleDisability(prev, presses[0]);
      TogglesParity(next, presses[1..], x);
      var before, after := multiset(presses[1..])[x], multiset(presses)[x];
      assert presses == [d] + presses[1..];
      assert x in next <==> (if x == d then d !in prev else x in prev);
      if x == d {
        assert after == before + 1;
        OneMoreFlipsParity(before);
      } else {
        assert after == before;
      }
    }
  }

  /** From the initial empty selection, no series of presses selects an option twice. */
  lemma {:induction false} TogglesFromEmptyHaveNoDuplicates(prev: seq<string>, presses: seq<string>)
    requires NoDuplicates(prev)
    ensures NoDuplicates(Toggles(prev, presses))
    decreases |presses|
  {
    if presses != [] {
      ToggleKeepsNoDuplicates(prev, presses[0]);
      TogglesFromEmptyHaveNoDuplicates(ToggleDisability(prev, presses[0]), presses[1..]);
    }
  }

  /** The `disabled` flag of the submit button. */
  function SubmitDisabled(selected: seq<string>, name: string): (r: bool)
    ensures r <==> |selected| == 0 || AllIn(name, JsWhitespace)
  {
    |selected| == 0 || Trim(name, JsWhitespace) == ""
  }

  /** Where `handleSubmit` navigates, with the router state it passes along. */
  datatype Navigation = Navigation(path: string, name: string, disabilities: seq<string>)

  function Route(selected: seq<string>): (r: string)
    ensures r in {"/subject_b", "/audial", "/general"}
  {
    if VisualImpairment in selected then "/subject_b"
    else if HearingImpairment in selected then "/audial"
    else "/general"
  }

  /** `handleSubmit`: visual impairment takes priority over hearing impairment, anything else is general. */
  function HandleSubmit(selected: seq<string>, name: string): (r: Navigation)
    ensures r.path in {"/subject_b", "/audial", "/general"}
    ensures r.path == "/subject_b" <==> VisualImpairment in selected
    ensures r.path == "/audial" <==> VisualImpairment !in selected && HearingImpairment in selected
    ensures r.path == "/general" <==> VisualImpairment !in selected && HearingImpairment !in selected
    ensures r.name == name && r.disabilities == selected
  {
    Navigation(Route(selected), name, selected)
  }

  /** Pressing any button other than the two that decide the route does not change where submit goes. */
  lemma RouteIgnoresOtherOptions(selected: seq<string>, d: string)
    requires d != VisualImpairment && d != HearingImpairment
    ensures HandleSubmit(ToggleDisability(selected, d), "").path == HandleSubmit(selected, "").path
  {
  }

  /** Of the four buttons, the last two never change where the form goes. */
  lemma LastTwoButtonsIgnored(selected: seq<string>)
    ensures forall i :: 2 <= i < |DisabilityOptions| ==>
              HandleSubmit(ToggleDisability(selected, DisabilityOptions[i]), "").path == HandleSubmit(selected, "").path
  {
    RouteIgnoresOtherOptions(selected, MotorDisability);
    RouteIgnoresOtherOptions(selected, LearningDisorder);
  }
}
