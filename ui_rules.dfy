/**
 * The page controller's decisions: how parameter names are shown, which algorithm shows which
 * parameter, the algorithm information title, the details-table filter, the obstacle list sent
 * with a planning request, the buttons that act on the scene, and the export of the details table.
 * Number parsing of input fields is taken as given: each field arrives as a number or as `NaN`.
 */
module UiRules {
  import opened Common
  import opened SceneState

  // ---------------------------------------------------------------------------
  // formatParameterName

  function UpperAscii(c: char): char
  {
    if 'a' <= c <= 'z' then (c as int - 32) as char else c
  }

  function LowerAscii(c: char): char
  {
    if 'A' <= c <= 'Z' then (c as int + 32) as char else c
  }

  /** Position `i` of `t` is matched by `\b\w`: a word character with no word character before it. */
  predicate WordStart(t: string, i: nat)
    requires i < |t|
  {
    IsWordChar(t[i]) && (i == 0 || !IsWordChar(t[i - 1]))
  }

  /** `name.replace(/_/g, ' ').replace(/\b\w/g, letter => letter.toUpperCase())` */
  function FormatParameterName(name: string): (r: string)
    ensures |r| == |name|
    ensures forall i :: 0 <= i < |r| ==> r[i] != '_'
    ensures forall i :: 0 <= i < |name| && name[i] == '_' ==> r[i] == ' '
    ensures forall i :: 0 <= i < |name| && name[i] != '_' ==> LowerAscii(r[i]) == LowerAscii(name[i])
    ensures forall i :: 0 <= i < |r| && WordStart(r, i) ==> !('a' <= r[i] <= 'z')
    ensures forall i :: 0 <= i < |r| && !WordStart(r, i) && name[i] != '_' ==> r[i] == name[i]
  {
    var spaced := seq(|name|, i requires 0 <= i < |name| => if name[i] == '_' then ' ' else name[i]);
    seq(|spaced|, i requires 0 <= i < |spaced| => if WordStart(spaced, i) then UpperAscii(spaced[i]) else spaced[i])
  }

  /** Formatting an already formatted name changes nothing. */
  lemma FormatParameterNameIdempotent(name: string)
    ensures FormatParameterName(FormatParameterName(name)) == FormatParameterName(name)
  {
    var r := FormatParameterName(name);
    var rr := FormatParameterName(r);
    forall i | 0 <= i < |r|
      ensures rr[i] == r[i]
    {
      if WordStart(r, i) {
        assert LowerAscii(rr[i]) == LowerAscii(r[i]);
        assert !('a' <= rr[i] <= 'z');
      }
    }
  }

  // ---------------------------------------------------------------------------
  // updateAlgorithmParameters and showAlgorithmInfo

  /** Which of the two optional parameter rows are displayed. */
  datatype ParameterVisibility = ParameterVisibility(goalSampleRate: bool, searchRadius: bool)

  function ParameterVisibilityFor(algorithm: string): ParameterVisibility
  {
    ParameterVisibility(algorithm != "RRTConnect", algorithm == "RRTStar" || algorithm == "InformedRRT")
  }

  /** The rows each known algorithm shows: RRT-Connect has no goal bias, only the RRT* variants
      have a search radius, and an unknown value shows the goal bias only. */
  lemma ParameterVisibilityTable(algorithm: string)
    ensures algorithm == "BaseRRT" ==> ParameterVisibilityFor(algorithm) == ParameterVisibility(true, false)
    ensures algorithm == "RRTStar" ==> ParameterVisibilityFor(algorithm) == ParameterVisibility(true, true)
    ensures algorithm == "InformedRRT" ==> ParameterVisibilityFor(algorithm) == ParameterVisibility(true, true)
    ensures algorithm == "RRTConnect" ==> ParameterVisibilityFor(algorithm) == ParameterVisibility(false, false)
    ensures algorithm !in {"BaseRRT", "RRTStar", "InformedRRT", "RRTConnect"} ==>
      ParameterVisibilityFor(algorithm) == ParameterVisibility(true, false)
    ensures ParameterVisibilityFor(algorithm).searchRadius ==> ParameterVisibilityFor(algorithm).goalSampleRate
  {
  }

  const KnownAlgorithms: seq<string> := ["BaseRRT", "RRTStar", "RRTConnect", "InformedRRT"]
  const KnownTitles: seq<string> := ["基础RRT算法", "RRT*算法", "RRT-Connect算法", "Informed RRT*算法"]
  const UnknownTitle: string := "未知算法"

  /** The toast title `showAlgorithmInfo` shows; an empty value shows nothing. */
  function AlgorithmInfoTitle(algorithm: string): (title: Option<string>)
    ensures title.None? <==> algorithm == ""
    ensures forall k :: 0 <= k < |KnownAlgorithms| && algorithm == KnownAlgorithms[k] ==>
      title == Some(KnownTitles[k])
    ensures algorithm != "" && algorithm !in KnownAlgorithms ==> title == Some(UnknownTitle)
  {
    if algorithm == "" then None
    else if algorithm == "BaseRRT" then Some("基础RRT算法")
    else if algorithm == "RRTStar" then Some("RRT*算法")
    else if algorithm == "RRTConnect" then Some("RRT-Connect算法")
    else if algorithm == "InformedRRT" then Some("Informed RRT*算法")
    else Some("未知算法")
  }

  /** Different algorithms get different titles, and no known algorithm is shown as unknown. */
  lemma AlgorithmTitlesDistinct(a: string, b: string)
    requires a != "" && b != "" && a != b
    requires a in KnownAlgorithms || b in KnownAlgorithms
    ensures AlgorithmInfoTitle(a) != AlgorithmInfoTitle(b)
  {
    assert |"基础RRT算法"| == 7 && |"RRT*算法"| == 6 && |"RRT-Connect算法"| == 13;
    assert |"Informed RRT*算法"| == 15 && |"未知算法"| == 4;
  }

  // ---------------------------------------------------------------------------
  // The details table

  /** A value of a planner's details, as parsed from the response. */
  datatype JsonValue =
    | JNull | JBool(b: bool) | JNum(n: real) | JStr(s: string)
    | JArray(items: seq<JsonValue>) | JObject(fields: seq<(string, JsonValue)>)

  /** `typeof value === 'object'`, which holds for `null`, arrays and objects. */
  predicate IsObjectTyped(v: JsonValue)
  {
    v.JNull? || v.JArray? || v.JObject?
  }

  /** The keys already shown in the result summary. */
  const SummaryKeys: set<string> := {"name", "path_length", "planning_time", "iterations", "nodes", "success"}

  /** An entry gets a row when its key is not in the summary and its value is not object-typed. */
  predicate ShowsDetail(entry: (string, JsonValue))
  {
    entry.0 !in SummaryKeys && !IsObjectTyped(entry.1)
  }

  /** The entries the details loop turns into rows, in their order. */
  function DetailRows(details: seq<(string, JsonValue)>): (rows: seq<(string, JsonValue)>)
    ensures |rows| <= |details|
    ensures forall e :: e in rows <==> e in details && ShowsDetail(e)
  {
    if details == [] then []
    else if ShowsDetail(details[0]) then [details[0]] + DetailRows(details[1..])
    else DetailRows(details[1..])
  }

  /** The filter works entry by entry, so it keeps the entries' relative order. */
  lemma {:induction false} DetailRowsAppend(a: seq<(string, JsonValue)>, b: seq<(string, JsonValue)>)
    ensures DetailRows(a + b) == DetailRows(a) + DetailRows(b)
  {
    if a == [] {
      assert a + b == b;
    } else {
      assert (a + b)[1..] == a[1..] + b;
      DetailRowsAppend(a[1..], b);
    }
  }

  /** Filtering the rows again removes nothing. */
  lemma {:induction false} DetailRowsIdempotent(details: seq<(string, JsonValue)>)
    ensures DetailRows(DetailRows(details)) == DetailRows(details)
  {
    if details != [] {
      DetailRowsIdempotent(details[1..]);
      if ShowsDetail(details[0]) {
        assert ([details[0]] + DetailRows(details[1..]))[1..] == DetailRows(details[1..]);
      }
    }
  }

  // ---------------------------------------------------------------------------
  // The obstacle list of a planning request

  /** An obstacle as the request body carries it: its type and only that type's fields. */
  function ObstacleToJson(o: Obstacle): (j: JsonValue)
    ensures ObstacleFromJson(j) == Some(o)
  {
    match o
    case Rectangle(x, y, w, h) =>
      JObject([("type", JStr("rectangle")), ("x", JNum(x)), ("y", JNum(y)), ("width", JNum(w)), ("height", JNum(h))])
    case Circle(cx, cy, r) =>
      JObject([("type", JStr("circle")), ("centerX", JNum(cx)), ("centerY", JNum(cy)), ("radius", JNum(r))])
  }

  /** Reads an obstacle back from its request form. */
  function ObstacleFromJson(j: JsonValue): Option<Obstacle>
  {
    match j
    case JObject(fs) =>
      if |fs| == 5 && fs[0] == ("type", JStr("rectangle")) && fs[1].0 == "x" && fs[2].0 == "y"
         && fs[3].0 == "width" && fs[4].0 == "height"
         && fs[1].1.JNum? && fs[2].1.JNum? && fs[3].1.JNum? && fs[4].1.JNum?
      then Some(Rectangle(fs[1].1.n, fs[2].1.n, fs[3].1.n, fs[4].1.n))
      else if |fs| == 4 && fs[0] == ("type", JStr("circle")) && fs[1].0 == "centerX" && fs[2].0 == "centerY"
         && fs[3].0 == "radius" && fs[1].1.JNum? && fs[2].1.JNum? && fs[3].1.JNum?
      then Some(Circle(fs[1].1.n, fs[2].1.n, fs[3].1.n))
      else None
    case _ => None
  }

  /** `state.obstacles.map(...)`: one entry per obstacle, in order, each reading back as that obstacle. */
  function RequestObstacles(obstacles: seq<Obstacle>): (js: seq<JsonValue>)
    ensures |js| == |obstacles|
    ensures forall i :: 0 <= i < |js| ==> ObstacleFromJson(js[i]) == Some(obstacles[i])
  {
    seq(|obstacles|, i requires 0 <= i < |obstacles| => ObstacleToJson(obstacles[i]))
  }

  // ---------------------------------------------------------------------------
  // Buttons and inputs acting on the scene

  /** How a button handler ended: no scene object, an invalid input, it acted on the scene, the
      scene's repaint raised out of the handler, or the handler caught that and showed a failure. */
  datatype ButtonResult =
    NotInitialised | InvalidInput | PointSet | ModeEntered | ObstacleRequested | ObstaclesCleared |
    Raised | FailureShown

  /** The set-start button. Each input is its `Number(...)` value, `None` standing for `NaN`. Both
      numbers set the start directly; otherwise the click mode for the start is entered. */
  method SetStartButton(v: Visualizer?, x: Option<real>, y: Option<real>) returns (r: ButtonResult)
    requires v != null ==> v.Valid()
    modifies v
    ensures v == null <==> r == NotInitialised
    ensures v != null ==> v.Valid() && v.goal == old(v.goal) && v.obstacles == old(v.obstacles)
    ensures v != null && x.Some? && y.Some? ==>
      && r == (if old(v.RenderFails()) then Raised else PointSet) && v.mode == old(v.mode)
      && v.start == Point(Clamp(v.startRadius, v.width - v.startRadius, x.value),
                          Clamp(v.startRadius, v.height - v.startRadius, y.value))
    ensures v != null && !(x.Some? && y.Some?) ==>
      r == ModeEntered && v.mode == SetStartMode && v.start == old(v.start)
  {
    if v == null {
      return NotInitialised;
    }
    if x.Some? && y.Some? {
      var raised := v.SetStart(Number(x.value), Number(y.value));
      r := if raised then Raised else PointSet;
    } else {
      v.EnterSetStartMode();
      r := ModeEntered;
    }
  }

  /** The set-goal button, as the set-start button for the goal. */
  method SetGoalButton(v: Visualizer?, x: Option<real>, y: Option<real>) returns (r: ButtonResult)
    requires v != null ==> v.Valid()
    modifies v
    ensures v == null <==> r == NotInitialised
    ensures v != null ==> v.Valid() && v.start == old(v.start) && v.obstacles == old(v.obstacles)
    ensures v != null && x.Some? && y.Some? ==>
      && r == (if old(v.RenderFails()) then Raised else PointSet) && v.mode == old(v.mode)
      && v.goal == Point(Clamp(v.goalRadius, v.width - v.goalRadius, x.value),
                         Clamp(v.goalRadius, v.height - v.goalRadius, y.value))
    ensures v != null && !(x.Some? && y.Some?) ==>
      r == ModeEntered && v.mode == SetGoalMode && v.goal == old(v.goal)
  {
    if v == null {
      return NotInitialised;
    }
    if x.Some? && y.Some? {
      var raised := v.SetGoal(Number(x.value), Number(y.value));
      r := if raised then Raised else PointSet;
    } else {
      v.EnterSetGoalMode();
      r := ModeEntered;
    }
  }

  /** A change in a start coordinate input: with a scene object and two numbers, sets the start. */
  method UpdateStartFromInputs(v: Visualizer?, x: Option<real>, y: Option<real>) returns (raised: bool)
    requires v != null ==> v.Valid()
    modifies v
    ensures raised <==> v != null && x.Some? && y.Some? && old(v.RenderFails())
    ensures v != null ==> v.Valid() && v.goal == old(v.goal) && v.mode == old(v.mode)
    ensures v != null && x.Some? && y.Some? ==>
      v.start == Point(Clamp(v.startRadius, v.width - v.startRadius, x.value),
                       Clamp(v.startRadius, v.height - v.startRadius, y.value))
    ensures v != null && !(x.Some? && y.Some?) ==> v.start == old(v.start)
  {
    raised := false;
    if v != null && x.Some? && y.Some? {
      raised := v.SetStart(Number(x.value), Number(y.value));
    }
  }

  /** A change in a goal coordinate input: with a scene object and two numbers, sets the goal. */
  method UpdateGoalFromInputs(v: Visualizer?, x: Option<real>, y: Option<real>) returns (raised: bool)
    requires v != null ==> v.Valid()
    modifies v
    ensures raised <==> v != null && x.Some? && y.Some? && old(v.RenderFails())
    ensures v != null ==> v.Valid() && v.start == old(v.start) && v.mode == old(v.mode)
    ensures v != null && x.Some? && y.Some? ==>
      v.goal == Point(Clamp(v.goalRadius, v.width - v.goalRadius, x.value),
                      Clamp(v.goalRadius, v.height - v.goalRadius, y.value))
    ensures v != null && !(x.Some? && y.Some?) ==> v.goal == old(v.goal)
  {
    raised := false;
    if v != null && x.Some? && y.Some? {
      raised := v.SetGoal(Number(x.value), Number(y.value));
    }
  }

  /** The add-rectangle button: any `NaN` input is refused; otherwise the scene's own check decides
      whether a rectangle is appended. */
  method AddRectangleButton(v: Visualizer?, x: Option<real>, y: Option<real>, w: Option<real>, h: Option<real>)
    returns (r: ButtonResult)
    requires v != null ==> v.Valid()
    modifies v
    ensures v == null <==> r == NotInitialised
    ensures v != null ==> v.Valid() && v.start == old(v.start) && v.goal == old(v.goal) && v.mode == old(v.mode)
    ensures v != null && (x.None? || y.None? || w.None? || h.None?) ==>
      r == InvalidInput && v.obstacles == old(v.obstacles)
    ensures v != null && x.Some? && y.Some? && w.Some? && h.Some? ==>
      && r == (if w.value > 0.0 && h.value > 0.0 && old(v.RenderFails()) then FailureShown else ObstacleRequested)
      && v.obstacles == old(v.obstacles) +
           (if w.value > 0.0 && h.value > 0.0 then [Rectangle(x.value, y.value, w.value, h.value)] else [])
  {
    if v == null {
      return NotInitialised;
    }
    if x.None? || y.None? || w.None? || h.None? {
      return InvalidInput;
    }
    var raised := v.AddRectangleObstacle(Number(x.value), Number(y.value), Number(w.value), Number(h.value));
    r := if raised then FailureShown else ObstacleRequested;
  }

  /** The add-circle button, as the add-rectangle button with centre and radius. */
  method AddCircleButton(v: Visualizer?, cx: Option<real>, cy: Option<real>, radius: Option<real>)
    returns (r: ButtonResult)
    requires v != null ==> v.Valid()
    modifies v
    ensures v == null <==> r == NotInitialised
    ensures v != null ==> v.Valid() && v.start == old(v.start) && v.goal == old(v.goal) && v.mode == old(v.mode)
    ensures v != null && (cx.None? || cy.None? || radius.None?) ==>
      r == InvalidInput && v.obstacles == old(v.obstacles)
    ensures v != null && cx.Some? && cy.Some? && radius.Some? ==>
      && r == (if radius.value > 0.0 && old(v.RenderFails()) then FailureShown else ObstacleRequested)
      && v.obstacles == old(v.obstacles) +
           (if radius.value > 0.0 then [Circle(cx.value, cy.value, radius.value)] else [])
  {
    if v == null {
      return NotInitialised;
    }
    if cx.None? || cy.None? || radius.None? {
      return InvalidInput;
    }
    var raised := v.AddCircleObstacle(Number(cx.value), Number(cy.value), Number(radius.value));
    r := if raised then FailureShown else ObstacleRequested;
  }

  /** The clear-obstacles button: empties the scene's obstacles, showing a failure when the
      repaint raises. */
  method ClearObstaclesButton(v: Visualizer?) returns (r: ButtonResult)
    requires v != null ==> v.Valid()
    modifies v
    ensures v == null <==> r == NotInitialised
    ensures v != null ==> v.Valid() && v.start == old(v.start) && v.goal == old(v.goal) && v.mode == old(v.mode)
    ensures v != null ==>
      v.obstacles == [] && r == (if old(v.RenderFails()) then FailureShown else ObstaclesCleared)
  {
    if v == null {
      return NotInitialised;
    }
    var raised := v.ClearObstacles();
    r := if raised then FailureShown else ObstaclesCleared;
  }

  // ---------------------------------------------------------------------------
  // Export of the details table

  /** The parameters object after copying the rows in order: a row with exactly two cells sets its
      first cell's text to its second cell's text, overwriting an earlier row with the same key. */
  function ParametersFrom(rows: seq<seq<string>>): map<string, string>
  {
    if rows == [] then map[]
    else
      var m := ParametersFrom(rows[..|rows| - 1]);
      var last := rows[|rows| - 1];
      if |last| == 2 then m[last[0] := last[1]] else m
  }

  /** The `rows.forEach` loop of the export handler. */
  method ExportParameters(rows: seq<seq<string>>) returns (parameters: map<string, string>)
    ensures parameters == ParametersFrom(rows)
  {
    parameters := map[];
    var i := 0;
    while i < |rows|
      invariant 0 <= i <= |rows|
      invariant parameters == ParametersFrom(rows[..i])
    {
      assert rows[..i + 1][..i] == rows[..i];
      if |rows[i]| == 2 {
        parameters := parameters[rows[i][0] := rows[i][1]];
      }
      i := i + 1;
    }
    assert rows[..i] == rows;
  }

  /** A key is exported exactly when some two-cell row names it, and its value is the second cell
      of the last such row. */
  lemma {:induction false} ParametersFromLastRowWins(rows: seq<seq<string>>, key: string)
    ensures key in ParametersFrom(rows) <==> exists i :: 0 <= i < |rows| && |rows[i]| == 2 && rows[i][0] == key
    ensures key in ParametersFrom(rows) ==>
      exists i :: && 0 <= i < |rows| && |rows[i]| == 2 && rows[i][0] == key
                  && ParametersFrom(rows)[key] == rows[i][1]
                  && forall j :: i < j < |rows| ==> !(|rows[j]| == 2 && rows[j][0] == key)
  {
    if rows != [] {
      var init := rows[..|rows| - 1];
      var last := rows[|rows| - 1];
      ParametersFromLastRowWins(init, key);
      forall i | 0 <= i < |init|
        ensures init[i] == rows[i]
      {
      }
      if |last| == 2 && last[0] == key {
        assert ParametersFrom(rows)[key] == rows[|rows| - 1][1];
      } else if key in ParametersFrom(init) {
        var i :| && 0 <= i < |init| && |init[i]| == 2 && init[i][0] == key
                 && ParametersFrom(init)[key] == init[i][1]
                 && forall j :: i < j < |init| ==> !(|init[j]| == 2 && init[j][0] == key);
        assert forall j :: i < j < |rows| ==> !(|rows[j]| == 2 && rows[j][0] == key);
      }
    }
  }
}
