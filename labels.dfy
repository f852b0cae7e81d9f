/**
 * The set of highlighted labels on the page and the click handler that
 * switches one label on or off.
 */
module Labels {

  /** `prev` with `labelName` switched: the symmetric difference with `{labelName}`. */
  function Toggled(prev: set<string>, labelName: string): (next: set<string>)
    ensures labelName in next <==> labelName !in prev
    ensures forall other :: other != labelName ==> (other in next <==> other in prev)
  {
    (prev - {labelName}) + ({labelName} - prev)
  }

  /** The state updater handed to `setActiveLabels`: it copies `prev`, then
      deletes `labelName` from the copy if present and adds it otherwise. */
  method ToggleUpdater(prev: set<string>, labelName: string) returns (newSet: set<string>)
    ensures newSet == Toggled(prev, labelName)
  {
    newSet := prev;
    if labelName in newSet {
      newSet := newSet - {labelName};
    } else {
      newSet := newSet + {labelName};
    }
  }

  /** Switching the same label twice restores the set. */
  lemma {:induction false} ToggleTwice(prev: set<string>, labelName: string)
    ensures Toggled(Toggled(prev, labelName), labelName) == prev
  {
    var once := Toggled(prev, labelName);
    var twice := Toggled(once, labelName);
    forall x
      ensures x in twice <==> x in prev
    {
      if x == labelName {
        assert labelName in twice <==> labelName !in once;
      }
    }
  }

  /** Switching two labels gives the same set in either order. */
  lemma {:induction false} ToggleCommutes(prev: set<string>, a: string, b: string)
    ensures Toggled(Toggled(prev, a), b) == Toggled(Toggled(prev, b), a)
  {
    var ab := Toggled(Toggled(prev, a), b);
    var ba := Toggled(Toggled(prev, b), a);
    forall x
      ensures x in ab <==> x in ba
    {
    }
  }

  /** The page's `activeLabels` state. */
  class Home {
    var activeLabels: set<string>

    constructor ()
      ensures activeLabels == {}
    {
      activeLabels := {};
    }

    /** `toggleLabel(labelName)`: the state becomes the updater's result on the old state. */
    method ToggleLabel(labelName: string)
      modifies this
      ensures activeLabels == Toggled(old(activeLabels), labelName)
      ensures labelName in activeLabels <==> labelName !in old(activeLabels)
    {
      activeLabels := ToggleUpdater(activeLabels, labelName);
    }
  }
}
