/**
 The user switches at the top of the scripts: pairs of flags of which exactly one must be set, and
 groups of flags whose switched-on members become the lists the scripts iterate over.
 */
module RunConfig {
  import opened Wrappers
  import opened Seqs

  /** The exception raised when a mutually exclusive pair is set wrongly. */
  datatype ConfigError =
    | BothSelected(first: string, second: string)
    | NoneSelected(first: string, second: string)

  datatype Direction = HomeToWork | WorkToHome
  datatype Source = Observed | Predicted

  /**
   Two mutually exclusive switches: the result says whether the first one was chosen. Setting both
   or neither raises.
   */
  function ChooseOne(a: bool, b: bool, aName: string, bName: string): (r: Result<bool, ConfigError>)
    ensures r.Success? <==> a != b
    ensures r.Success? ==> r.value == a && r.value != b
    ensures a && b ==> r == Failure(BothSelected(aName, bName))
    ensures !a && !b ==> r == Failure(NoneSelected(aName, bName))
  {
    if a && b then Failure(BothSelected(aName, bName))
    else if !a && !b then Failure(NoneSelected(aName, bName))
    else Success(a)
  }

  /** The `home_to_work` / `work_to_home` switches of the plotting script. */
  function DirectionFlags(homeToWork: bool, workToHome: bool): (r: Result<Direction, ConfigError>)
    ensures r.Success? <==> homeToWork != workToHome
    ensures r == Success(HomeToWork) <==> homeToWork && !workToHome
    ensures r == Success(WorkToHome) <==> workToHome && !homeToWork
  {
    match ChooseOne(homeToWork, workToHome, "home_to_work", "work_to_home")
    case Success(first) => Success(if first then HomeToWork else WorkToHome)
    case Failure(e) => Failure(e)
  }

  /** The `observed` / `predicted` switches of the plotting script. */
  function SourceFlags(observed: bool, predicted: bool): (r: Result<Source, ConfigError>)
    ensures r.Success? <==> observed != predicted
    ensures r == Success(Observed) <==> observed && !predicted
    ensures r == Success(Predicted) <==> predicted && !observed
  {
    match ChooseOne(observed, predicted, "observed", "predicted")
    case Success(first) => Success(if first then Observed else Predicted)
    case Failure(e) => Failure(e)
  }

  /** The number of switched-on flags. */
  function CountOn(flags: seq<bool>): nat {
    if |flags| == 0 then 0 else (if flags[0] then 1 else 0) + CountOn(flags[1..])
  }

  /**
   The names of the switched-on flags, in the order the flags are listed: the
   `if flag: list.append(name)` statements, or the equivalent `while flag: list.append(name); break`
   blocks.
   */
  function Selected(flags: seq<bool>, names: seq<string>): (r: seq<string>)
    requires |flags| == |names|
    ensures |r| == CountOn(flags)
    ensures IsSubsequence(r, names)
    ensures forall i :: 0 <= i < |names| && flags[i] ==> names[i] in r
    ensures forall k :: 0 <= k < |r| ==> exists i :: 0 <= i < |names| && flags[i] && names[i] == r[k]
  {
    if |flags| == 0 then []
    else
      var rest := Selected(flags[1..], names[1..]);
      var r := if flags[0] then [names[0]] + rest else rest;
      SelectedStep(flags, names, rest);
      r
  }

  /** `r` lists exactly the names whose flags are on, in order. */
  predicate ListsSelected(r: seq<string>, flags: seq<bool>, names: seq<string>)
    requires |flags| == |names|
  {
    && |r| == CountOn(flags)
    && IsSubsequence(r, names)
    && (forall i :: 0 <= i < |names| && flags[i] ==> names[i] in r)
    && (forall k :: 0 <= k < |r| ==> exists i :: 0 <= i < |names| && flags[i] && names[i] == r[k])
  }

  /** Listing the first name when its flag is on, in front of the names listed for the rest. */
  lemma SelectedStep(flags: seq<bool>, names: seq<string>, rest: seq<string>)
    requires |flags| == |names| > 0
    requires ListsSelected(rest, flags[1..], names[1..])
    ensures ListsSelected(if flags[0] then [names[0]] + rest else rest, flags, names)
  {
    var r := if flags[0] then [names[0]] + rest else rest;
    SelectedStepOrder(flags, names, rest);
    forall k | 0 <= k < |r| ensures exists i :: 0 <= i < |names| && flags[i] && names[i] == r[k] {
      SelectedStepSound(flags, names, rest, k);
    }
    forall i | 0 <= i < |names| && flags[i] ensures names[i] in r {
      SelectedStepComplete(flags, names, rest, i);
    }
  }

  lemma SelectedStepOrder(flags: seq<bool>, names: seq<string>, rest: seq<string>)
    requires |flags| == |names| > 0
    requires |rest| == CountOn(flags[1..]) && IsSubsequence(rest, names[1..])
    ensures var r := if flags[0] then [names[0]] + rest else rest;
      |r| == CountOn(flags) && IsSubsequence(r, names)
  {
    if flags[0] {
      assert ([names[0]] + rest)[1..] == rest;
    } else {
      SubsequenceOfTail(rest, names);
    }
  }

  lemma SelectedStepComplete(flags: seq<bool>, names: seq<string>, rest: seq<string>, i: int)
    requires |flags| == |names| > 0
    requires forall i :: 0 <= i < |names[1..]| && flags[1..][i] ==> names[1..][i] in rest
    requires 0 <= i < |names| && flags[i]
    ensures names[i] in if flags[0] then [names[0]] + rest else rest
  {
    if i > 0 {
      assert names[1..][i - 1] == names[i] && flags[1..][i - 1];
    }
  }

  lemma SelectedStepSound(flags: seq<bool>, names: seq<string>, rest: seq<string>, k: int)
    requires |flags| == |names| > 0
    requires forall k :: 0 <= k < |rest| ==>
      exists i :: 0 <= i < |names[1..]| && flags[1..][i] && names[1..][i] == rest[k]
    requires 0 <= k < |if flags[0] then [names[0]] + rest else rest|
    ensures var r := if flags[0] then [names[0]] + rest else rest;
      exists i :: 0 <= i < |names| && flags[i] && names[i] == r[k]
  {
    var r := if flags[0] then [names[0]] + rest else rest;
    if flags[0] && k == 0 {
      assert names[0] == r[k];
    } else {
      var k' := if flags[0] then k - 1 else k;
      assert r[k] == rest[k'];
      var i :| 0 <= i < |names[1..]| && flags[1..][i] && names[1..][i] == rest[k'];
      assert names[i + 1] == r[k];
    }
  }

  /** With distinct names a name is listed exactly when its flag is on. */
  lemma SelectedIff(flags: seq<bool>, names: seq<string>, i: int)
    requires |flags| == |names| && Distinct(names) && 0 <= i < |names|
    ensures names[i] in Selected(flags, names) <==> flags[i]
  {
    if names[i] in Selected(flags, names) {
      var k :| 0 <= k < |Selected(flags, names)| && Selected(flags, names)[k] == names[i];
      var i' :| 0 <= i' < |names| && flags[i'] && names[i'] == Selected(flags, names)[k];
      assert i' == i;
    }
  }

  /** Distinct names give a list without repetitions. */
  lemma {:induction false} SelectedDistinct(flags: seq<bool>, names: seq<string>)
    requires |flags| == |names| && Distinct(names)
    ensures Distinct(Selected(flags, names))
    decreases |flags|
  {
    if |flags| > 0 {
      var rest := Selected(flags[1..], names[1..]);
      SelectedDistinct(flags[1..], names[1..]);
      if flags[0] {
        forall k | 0 <= k < |rest| ensures rest[k] != names[0] {
          TailSelectionOmitsHead(flags, names, k);
        }
        ConsDistinct(names[0], rest);
      }
    }
  }

  /** With distinct names, the names listed for the rest of the flags never include the first name. */
  lemma TailSelectionOmitsHead(flags: seq<bool>, names: seq<string>, k: int)
    requires |flags| == |names| > 0 && Distinct(names)
    requires 0 <= k < |Selected(flags[1..], names[1..])|
    ensures Selected(flags[1..], names[1..])[k] != names[0]
  {
    var rest := Selected(flags[1..], names[1..]);
    var i :| 0 <= i < |names[1..]| && flags[1..][i] && names[1..][i] == rest[k];
    assert names[i + 1] == rest[k];
  }

  /** `mode_list`: car, bus, rail in that order. */
  function ModeList(car: bool, bus: bool, rail: bool): seq<string> {
    Selected([car, bus, rail], ["car", "bus", "rail"])
  }

  /** `input_list` of the baseline scripts: distances, observed and predicted flows. */
  function InputList(dij: bool, tobs: bool, tpred: bool): seq<string> {
    Selected([dij, tobs, tpred], ["Dij", "Tobs", "Tpred"])
  }

  /** `input_list` of the occupation script. */
  function OccupationInputList(occ: bool, ess: bool, noMode: bool): seq<string> {
    Selected([occ, ess, noMode], ["Occ", "Ess", "NoMode"])
  }

  /** `directions` of the signature preparation: both may be switched on. */
  function DirectionList(homeToWork: bool, workToHome: bool): seq<string> {
    Selected([homeToWork, workToHome], ["home_to_work", "work_to_home"])
  }

  /** `metrices` of the signature preparation. */
  function MetricList(trips: bool, shortestRoute: bool, timeSpent: bool): seq<string> {
    Selected([trips, shortestRoute, timeSpent], ["trips", "shortest_route", "time_spent"])
  }

  /** Every mode list is an ordered, repetition-free selection of car, bus, rail. */
  lemma ModeListShape(car: bool, bus: bool, rail: bool)
    ensures var l := ModeList(car, bus, rail);
      && |l| <= 3
      && IsSubsequence(l, ["car", "bus", "rail"])
      && Distinct(l)
      && ("car" in l <==> car) && ("bus" in l <==> bus) && ("rail" in l <==> rail)
  {
    var names := ["car", "bus", "rail"];
    var flags := [car, bus, rail];
    assert Distinct(names);
    SelectedDistinct(flags, names);
    SelectedIff(flags, names, 0);
    SelectedIff(flags, names, 1);
    SelectedIff(flags, names, 2);
    CountAtMost(flags);
  }

  lemma {:induction false} CountAtMost(flags: seq<bool>)
    ensures CountOn(flags) <= |flags|
    decreases |flags|
  {
    if |flags| > 0 {
      CountAtMost(flags[1..]);
    }
  }
}
