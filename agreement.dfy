/**
  How the two copies' pose choices relate. With one input held they show the same
  thing; with a chord the stateless copy prefers the lowest action button, the
  hardened copy the newest (and, among simultaneous presses, the highest).
 */
module Agreement {
  import opened Gamepad
  import opened Visual
  import opened RootOverlay
  import opened DistOverlay

  /** Exactly one action button, `i`, is pressed. */
  predicate OnlyAction(actions: seq<bool>, i: nat)
  {
    i < |actions| && forall j :: 0 <= j < |actions| ==> (actions[j] <==> j == i)
  }

  /** No two directionals are active together. */
  predicate AtMostOneActive(st: DirectionalStates)
  {
    && !(st.left && st.right) && !(st.left && st.up) && !(st.left && st.down)
    && !(st.right && st.up) && !(st.right && st.down) && !(st.up && st.down)
  }

  /** One action button held: both copies show its arm, whatever the hardened copy remembered. */
  lemma SingleActionAgrees(m: Mapping, snap: Snapshot, prev: seq<bool>, remembered: int, i: nat)
    requires OnlyAction(ActionStates(m, snap), i)
    ensures DistArm(prev, remembered, ActionStates(m, snap)) == RootFrame(m, snap).arm == i
  {
    assert ActionStates(m, snap)[i];
  }

  /** No action button held: both copies lower the arm. */
  lemma NoActionAgrees(m: Mapping, snap: Snapshot, prev: seq<bool>, remembered: int)
    requires forall j :: 0 <= j < ActionCount ==> !ActionStates(m, snap)[j]
    ensures DistArm(prev, remembered, ActionStates(m, snap)) == RootFrame(m, snap).arm == -1
  {
  }

  /**
    Exactly one directional active (or none): both copies show the same hand pose,
    whatever the hardened copy remembered.
   */
  lemma SingleDirectionAgrees(m: Mapping, snap: Snapshot, prev: DirectionalStates, remembered: Option<Direction>)
    requires AtMostOneActive(ReadDirectionals(m, snap))
    ensures DistHand(prev, remembered, ReadDirectionals(m, snap)) == RootFrame(m, snap).hand
  {
  }

  /**
    Two action buttons pressed together from a clear memory: the stateless copy
    shows the lower one, the hardened copy the higher one.
   */
  lemma ChordFromRestDiffers(actions: seq<bool>, i: nat, j: nat)
    requires |actions| == ActionCount && i < j < ActionCount
    requires forall k :: 0 <= k < ActionCount ==> (actions[k] <==> k == i || k == j)
    ensures FirstPressedFrom(actions, 0) == i
    ensures DistArm([], -1, actions) == j
  {
    assert actions[i] && Rising([], actions, j);
  }
}
