/**
  * Target pinning in the YAML editor (useYamlApply in frontend/lib/yaml-apply.ts): a successful preview pins the
  * cluster it ran against, and a pinned apply goes there however often the operator switches clusters meanwhile.
  */
module PreviewPin {

  import opened Options

  const LOCAL_CLUSTER_ID := "local"

  /** The operator's selection at one instant; the epoch is one more after every switch. */
  datatype Target = Target(clusterId: string, generation: string, epoch: nat)

  datatype Pin = Pin(target: Target, targetCluster: string, targetGeneration: string)

  /** A preview that ran to completion, and how many previews had been asked for when it was. */
  datatype Preview = Preview(number: nat, pin: Pin)

  /** An apply as sent: X-Cluster-ID, the pin parameters, and how many previews had been asked for by then. */
  datatype Apply = Apply(header: string, pin: Option<(string, string)>, previews: nat)

  /**
    * The hook's refs and signals that concern targeting, the operator's selection, and three histories: previews
    * asked for, previews that succeeded, applies sent.
    */
  datatype State = State(
    pinning: bool, selected: Target, validating: Option<Target>, applying: bool, pin: Option<Pin>,
    asked: nat, previews: seq<Preview>, applies: seq<Apply>)

  datatype Event =
    | SwitchCluster(clusterId: string, generation: string)
    | ValidatePress
    | ValidateAnswer(verdict: Option<(string, string)>)  // the target the server names; None: the request failed
    | ApplyPress
    | ApplyAnswer(pinRefused: bool)
    | ClearPin

  function Initial(pinning: bool, clusterId: string, generation: string): State
  {
    State(pinning, Target(clusterId, generation, 0), None, false, None, 0, [], [])
  }

  function Normalized(id: string): string { if id == "" then LOCAL_CLUSTER_ID else id }

  function Validated(s: State, verdict: Option<(string, string)>): State
  {
    if s.validating.None? then s
    else
      var target := s.validating.value;
      var s1 := s.(validating := None);
      if verdict.None? || s.selected.epoch != target.epoch || Normalized(verdict.value.0) != Normalized(target.clusterId) then s1
      else
        var pin := Pin(target, verdict.value.0, verdict.value.1);
        s1.(pin := Some(pin), previews := s.previews + [Preview(s.asked, pin)])
  }

  function Step(s: State, e: Event): State
  {
    match e
    case SwitchCluster(clusterId, generation) => s.(selected := Target(clusterId, generation, s.selected.epoch + 1))
    case ValidatePress =>
      if s.applying || s.validating.Some? then s
      else s.(validating := Some(s.selected), pin := None, asked := s.asked + 1)
    case ValidateAnswer(verdict) => Validated(s, verdict)
    case ApplyPress =>
      if s.applying || s.validating.Some? || (s.pinning && s.pin.None?) then s
      else if s.pinning then
        var p := s.pin.value;
        s.(applying := true,
           applies := s.applies + [Apply(p.target.clusterId, Some((p.targetCluster, p.targetGeneration)), s.asked)])
      else s.(applying := true, applies := s.applies + [Apply(s.selected.clusterId, None, s.asked)])
    case ApplyAnswer(pinRefused) =>
      if !s.applying then s else s.(applying := false, pin := if pinRefused then None else s.pin)
    case ClearPin => s.(pin := None)
  }

  function Run(s: State, es: seq<Event>): State
  {
    if es == [] then s else Step(Run(s, es[..|es| - 1]), es[|es| - 1])
  }

  // --- The hook itself ---

  class Editor {
    const pinning: bool
    var selected: Target
    var validating: Option<Target>
    var applying: bool
    var pin: Option<Pin>
    var asked: nat
    var previews: seq<Preview>
    var applies: seq<Apply>

    ghost function Value(): State
      reads this
    {
      State(pinning, selected, validating, applying, pin, asked, previews, applies)
    }

    /** A Validate press, up to the point where it waits for the answer. */
    method HandleValidate()
      modifies this
      ensures Value() == Step(old(Value()), ValidatePress)
    {
      if applying || validating.Some? { return; }
      validating := Some(selected);
      asked := asked + 1;
      pin := None;
    }

    method SettleValidate(verdict: Option<(string, string)>)
      modifies this
      ensures Value() == Step(old(Value()), ValidateAnswer(verdict))
    {
      if validating.None? { return; }
      var target := validating.value;
      validating := None;
      if verdict.None? { return; }
      if selected.epoch != target.epoch { return; }
      var (targetCluster, targetGeneration) := verdict.value;
      if Normalized(targetCluster) != Normalized(target.clusterId) { return; }
      pin := Some(Pin(target, targetCluster, targetGeneration));
      previews := previews + [Preview(asked, pin.value)];
    }

    /** An Apply press, up to the point where it waits for the answer. */
    method HandleApply()
      modifies this
      ensures Value() == Step(old(Value()), ApplyPress)
    {
      if applying || validating.Some? { return; }
      var pinned := pin;
      if pinning && pinned.None? { return; }
      applying := true;
      var query: Option<(string, string)> :=
        if pinning then Some((pinned.value.targetCluster, pinned.value.targetGeneration)) else None;
      var clusterId := if pinning then pinned.value.target.clusterId else selected.clusterId;
      applies := applies + [Apply(clusterId, query, asked)];
    }

    method SettleApply(pinRefused: bool)
      modifies this
      ensures Value() == Step(old(Value()), ApplyAnswer(pinRefused))
    {
      if !applying { return; }
      if pinRefused { pin := None; }
      applying := false;
    }
  }

  // --- A pinned apply goes where the latest preview ran ---

  /** Two ids for one cluster: "" stands for the local one. */
  predicate SameCluster(a: string, b: string)
  {
    a == b || ((a == "" || a == "local") && (b == "" || b == "local"))
  }

  /** The preview vouches for the apply: same cluster in header and pin, and no preview was asked for in between. */
  predicate Vouches(p: Preview, a: Apply)
  {
    && a.header == p.pin.target.clusterId && a.pin == Some((p.pin.targetCluster, p.pin.targetGeneration))
    && p.number == a.previews
    && SameCluster(p.pin.targetCluster, a.header)
  }

  ghost predicate Vouched(ps: seq<Preview>, a: Apply) { exists i :: 0 <= i < |ps| && Vouches(ps[i], a) }

  ghost predicate Inv(s: State)
  {
    && !(s.applying && s.validating.Some?)
    && (s.validating.Some? ==> s.pin.None? && s.validating.value.epoch <= s.selected.epoch
                               && (s.validating.value.epoch == s.selected.epoch ==> s.validating.value == s.selected))
    && (s.pin.Some? ==> s.previews != [] && s.previews[|s.previews| - 1] == Preview(s.asked, s.pin.value))
    && (forall i :: 0 <= i < |s.previews| ==>
          SameCluster(s.previews[i].pin.targetCluster, s.previews[i].pin.target.clusterId))
    && (s.pinning ==> forall j :: 0 <= j < |s.applies| ==> Vouched(s.previews, s.applies[j]))
  }

  lemma MorePreviews(ps: seq<Preview>, p: Preview)
    ensures forall a :: Vouched(ps, a) ==> Vouched(ps + [p], a)
  {
    forall a | Vouched(ps, a)
      ensures Vouched(ps + [p], a)
    {
      var i :| 0 <= i < |ps| && Vouches(ps[i], a);
      assert Vouches((ps + [p])[i], a);
    }
  }

  lemma StepKeepsInv(s: State, e: Event)
    requires Inv(s)
    ensures Inv(Step(s, e))
  {
    match e
    case ValidateAnswer(verdict) =>
      if s.validating.Some? && verdict.Some? {
        MorePreviews(s.previews, Preview(s.asked, Pin(s.validating.value, verdict.value.0, verdict.value.1)));
      }
    case ApplyPress =>
      var s' := Step(s, e);
      if s.pinning && s'.applies != s.applies {
        assert Vouches(s.previews[|s.previews| - 1], s'.applies[|s.applies|]);
      }
    case _ =>
  }

  lemma {:induction false} RunKeepsInv(s: State, es: seq<Event>)
    requires Inv(s)
    ensures Inv(Run(s, es))
  {
    if es != [] {
      RunKeepsInv(s, es[..|es| - 1]);
      StepKeepsInv(Run(s, es[..|es| - 1]), es[|es| - 1]);
    }
  }

  lemma {:induction false} PinningIsFixed(s: State, es: seq<Event>)
    ensures Run(s, es).pinning == s.pinning
  {
    if es != [] { PinningIsFixed(s, es[..|es| - 1]); }
  }

  /**
    * Over every run of switches, previews, applies and answers, each apply of a pinning editor is addressed, in
    * header and query both, to the cluster of a successful preview, and that preview is the last one asked for
    * before the apply; the cluster selected when Apply was pressed plays no part.
    */
  lemma PinnedAppliesFollowPreview(clusterId: string, generation: string, es: seq<Event>)
    ensures var s := Run(Initial(true, clusterId, generation), es);
            forall j :: 0 <= j < |s.applies| ==> Vouched(s.previews, s.applies[j])
  {
    RunKeepsInv(Initial(true, clusterId, generation), es);
    PinningIsFixed(Initial(true, clusterId, generation), es);
  }

  predicate Switches(es: seq<Event>) { exists i :: 0 <= i < |es| && es[i].SwitchCluster? }

  predicate Unanswered(es: seq<Event>) { forall i :: 0 <= i < |es| ==> !es[i].ValidateAnswer? }

  /** While a preview is out, presses change nothing and only switches move the epoch. */
  lemma {:induction false} PreviewStaysOut(s: State, es: seq<Event>)
    requires s.validating.Some? && s.pin.None? && Unanswered(es)
    ensures var s' := Run(s, es);
            && s'.validating == s.validating && s'.pin.None?
            && (if Switches(es) then s'.selected.epoch > s.selected.epoch else s'.selected == s.selected)
  {
    if es != [] {
      var n := |es| - 1;
      PreviewStaysOut(s, es[..n]);
      if Switches(es[..n]) {
        var i :| 0 <= i < n && es[..n][i].SwitchCluster?;
        assert es[i].SwitchCluster?;
      } else if es[n].SwitchCluster? {
        assert Switches(es);
      } else {
        assert forall i :: 0 <= i < n ==> es[i] == es[..n][i];
      }
    }
  }

  /**
    * A preview that was in flight across a switch never pins anything, whatever else happened meanwhile and even
    * when the operator switched back.
    */
  lemma LatePreviewNeverPins(s: State, es: seq<Event>, verdict: Option<(string, string)>)
    requires Inv(s) && s.validating.Some? && Switches(es) && Unanswered(es)
    ensures Step(Run(s, es), ValidateAnswer(verdict)).pin.None?
  {
    PreviewStaysOut(s, es);
  }

  /**
    * A preview pins exactly when it succeeds, the operator made no switch while it was out, and the server names
    * the cluster it was sent to.
    */
  lemma PreviewPinsIff(s: State, es: seq<Event>, verdict: Option<(string, string)>)
    requires Inv(s) && !s.applying && s.validating.None? && Unanswered(es)
    ensures Step(Run(Step(s, ValidatePress), es), ValidateAnswer(verdict)).pin.Some?
            <==> verdict.Some? && !Switches(es) && SameCluster(verdict.value.0, s.selected.clusterId)
    ensures var pin := Step(Run(Step(s, ValidatePress), es), ValidateAnswer(verdict)).pin;
            pin.Some? ==> pin.value == Pin(s.selected, verdict.value.0, verdict.value.1)
  {
    PreviewStaysOut(Step(s, ValidatePress), es);
  }

  /** The cluster the operator has selected after the events. */
  function SelectedAfter(clusterId: string, es: seq<Event>): string
  {
    if es == [] then clusterId
    else if es[|es| - 1].SwitchCluster? then es[|es| - 1].clusterId
    else SelectedAfter(clusterId, es[..|es| - 1])
  }

  lemma {:induction false} SelectionFollowsSwitches(pinning: bool, clusterId: string, generation: string, es: seq<Event>)
    ensures Run(Initial(pinning, clusterId, generation), es).selected.clusterId == SelectedAfter(clusterId, es)
  {
    if es != [] { SelectionFollowsSwitches(pinning, clusterId, generation, es[..|es| - 1]); }
  }

  /** An editor that does not pin sends each apply to the cluster selected when it is pressed, with no pin. */
  lemma UnpinnedApplyFollowsSelection(clusterId: string, generation: string, es: seq<Event>)
    ensures var s := Run(Initial(false, clusterId, generation), es);
            var s' := Step(s, ApplyPress);
            if s.applying || s.validating.Some? then s' == s
            else s'.applies == s.applies + [Apply(SelectedAfter(clusterId, es), None, s.asked)] && s'.applying
  {
    SelectionFollowsSwitches(false, clusterId, generation, es);
    PinningIsFixed(Initial(false, clusterId, generation), es);
  }

  /** A new editor is idle: its first Validate is sent to the selected cluster, and so is its first Apply if it does not pin. */
  lemma NewEditorIsIdle(pinning: bool, clusterId: string, generation: string)
    ensures var s := Initial(pinning, clusterId, generation);
            && s.previews == [] && s.applies == [] && s.pin.None?
            && (var v := Step(s, ValidatePress); v.validating == Some(s.selected) && v.validating.value.clusterId == clusterId)
            && Step(s, ApplyPress).applies == if pinning then [] else [Apply(clusterId, None, 0)]
  {
  }

  /** A pinning editor that has a pin and is idle does send, to the pin's cluster; without one it sends nothing. */
  lemma PinnedApplyIsSent(s: State)
    requires s.pinning && !s.applying && s.validating.None?
    ensures var s' := Step(s, ApplyPress);
            if s.pin.None? then s' == s
            else && s'.applying && s'.pin == s.pin && |s'.applies| == |s.applies| + 1
                 && var a := s'.applies[|s.applies|];
                    a.header == s.pin.value.target.clusterId
                    && a.pin == Some((s.pin.value.targetCluster, s.pin.value.targetGeneration))
  {
  }

  /** A refused pin is gone after the answer; any other answer leaves it for the next apply. */
  lemma PinAfterAnswer(s: State, pinRefused: bool)
    requires s.applying
    ensures var s' := Step(s, ApplyAnswer(pinRefused)); !s'.applying && s'.pin == if pinRefused then None else s.pin
  {
  }
}
