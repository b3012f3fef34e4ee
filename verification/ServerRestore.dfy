/** The offline restore of electron/server-manager.js and its fence around application containers. */
module ServerRestore {
  import opened JsStrings
  import opened TextLines
  import opened EnvTopology

  datatype Result<+T> = Ok(value: T) | Failed

  // ------------------------------------------------------------ the container inventory

  /** A field of a decoded JSON object. */
  datatype Json = Missing | Text(text: JsString) | Flag(flag: bool) | Other

  datatype Labels = LabelText(text: JsString) | LabelObject(fields: map<JsString, Json>) | NoLabels

  datatype Row = Row(id: Json, service: Json, state: Json, labels: Labels)

  /** What `docker compose ps` printed. */
  datatype Inventory = Nothing | Unreadable | Rows(rows: seq<Row>)

  const COMMA: CodeUnit := 0x2C

  const INFRASTRUCTURE: set<JsString> := {
    Js("postgres"), Js("redis"), Js("pgbouncer"), Js("minio"), Js("otel-collector"), Js("jaeger"), Js("prometheus"),
    Js("alertmanager"), Js("postgres-exporter"), Js("redis-exporter"), Js("node-exporter"), Js("grafana")
  }

  const ACTIVE_STATES: set<JsString> := {Js("running"), Js("restarting"), Js("paused")}

  const ONE_OFF_LABEL := Js("com.docker.compose.oneoff")

  function LabelValue(text: JsString): seq<JsString> {
    var n := IndexOf(text, EQUALS);
    if n == |text| || Trim(text[..n]) != ONE_OFF_LABEL then [] else [Trim(text[n + 1..])]
  }

  function LabelValues(labels: seq<JsString>): seq<JsString> {
    if labels == [] then [] else LabelValue(labels[0]) + LabelValues(labels[1..])
  }

  function OneOffField(labels: Labels): Json {
    match labels
    case LabelText(text) =>
      var values := LabelValues(SplitOn(text, COMMA));
      if |values| == 1 then Text(values[0]) else Missing
    case LabelObject(fields) => if ONE_OFF_LABEL in fields then fields[ONE_OFF_LABEL] else Missing
    case NoLabels => Missing
  }

  /** Whether the container was created by `compose run`. */
  function IsOneOff(labels: Labels): Result<bool> {
    match OneOffField(labels)
    case Flag(flag) => Ok(flag)
    case Text(text) =>
      var value := LowerCase(Trim(text));
      if value == TRUE then Ok(true) else if value == FALSE then Ok(false) else Failed
    case _ => Failed
  }

  predicate IsContainerId(id: JsString) {
    12 <= |id| <= 64 && forall c :: c in id ==> IsDigit(c) || 0x41 <= c <= 0x46 || 0x61 <= c <= 0x66
  }

  predicate IsActiveState(state: JsString) {
    LowerCase(Trim(state)) in ACTIVE_STATES
  }

  predicate IsInfrastructure(service: JsString) {
    LowerCase(Trim(service)) in INFRASTRUCTURE
  }

  /** The ID of the row's container when it must be stopped. */
  function Classify(row: Row): Result<Option<JsString>> {
    if !row.state.Text? || Trim(row.state.text) == [] then Failed
    else if !IsActiveState(row.state.text) then Ok(None)
    else if !row.service.Text? then Failed
    else if IsInfrastructure(row.service.text) && IsOneOff(row.labels).Failed? then Failed
    else if IsInfrastructure(row.service.text) && !IsOneOff(row.labels).value then Ok(None)
    else if row.id.Text? && IsContainerId(Trim(row.id.text)) then Ok(Some(Trim(row.id.text)))
    else Failed
  }

  function Collect(rows: seq<Row>, ids: seq<JsString>): Result<seq<JsString>>
    decreases |rows|
  {
    if rows == [] then Ok(ids)
    else
      match Classify(rows[0])
      case Failed => Failed
      case Ok(None) => Collect(rows[1..], ids)
      case Ok(Some(id)) => Collect(rows[1..], if id in ids then ids else ids + [id])
  }

  function RestoreApplicationContainerIds(inventory: Inventory): Result<seq<JsString>> {
    match inventory
    case Nothing => Ok([])
    case Unreadable => Failed
    case Rows(rows) => if rows == [] then Failed else Collect(rows, [])
  }

  method FindApplicationContainers(inventory: Inventory) returns (r: Result<seq<JsString>>)
    ensures r == RestoreApplicationContainerIds(inventory)
  {
    hide Classify;
    if inventory.Nothing? {
      return Ok([]);
    }
    if inventory.Unreadable? || inventory.rows == [] {
      return Failed;
    }
    var rows := inventory.rows;
    var seen: set<JsString>, ids: seq<JsString> := {}, [];
    var i := 0;
    while i < |rows|
      invariant 0 <= i <= |rows|
      invariant Collect(rows, []) == Collect(rows[i..], ids)
      invariant forall id :: id in seen <==> id in ids
    {
      var found := Classify(rows[i]);
      assert rows[i..][1..] == rows[i + 1..];
      if found.Failed? {
        return Failed;
      }
      if found.value.Some? && found.value.value !in seen {
        seen := seen + {found.value.value};
        ids := ids + [found.value.value];
      }
      i := i + 1;
    }
    r := Ok(ids);
  }

  // ------------------------------------------------------------ containers

  datatype Container = Container(id: JsString, service: JsString, state: JsString, oneOff: bool)

  type World = seq<Container>

  predicate IsActive(c: Container) {
    IsActiveState(c.state)
  }

  /** Neither part of the infrastructure nor inactive: it may touch the data to be restored. */
  predicate MayWrite(c: Container) {
    IsActive(c) && (c.oneOff || !IsInfrastructure(c.service))
  }

  /** No active container is an application or one-off container. */
  ghost predicate Quiet(world: World) {
    forall c :: c in world ==> !MayWrite(c)
  }

  /** The row was printed for the container; a one-off label that can be read tells the truth. */
  ghost predicate Describes(row: Row, c: Container) {
    && row.id == Text(c.id) && Trim(c.id) == c.id && row.service == Text(c.service) && row.state == Text(c.state)
    && (IsOneOff(row.labels).Ok? ==> IsOneOff(row.labels).value == c.oneOff)
  }

  ghost predicate IsInventoryOf(inventory: Inventory, world: World) {
    match inventory
    case Nothing => world == []
    case Unreadable => true
    case Rows(rows) => forall c :: c in world ==> exists row :: row in rows && Describes(row, c)
  }

  function Stopped(c: Container, ids: seq<JsString>): Container {
    if c.id in ids then c.(state := Js("exited")) else c
  }

  /** What a successful `docker stop` leaves. */
  function StopAll(world: World, ids: seq<JsString>): World {
    if world == [] then [] else [Stopped(world[0], ids)] + StopAll(world[1..], ids)
  }

  // ------------------------------------------------------------ the fence

  lemma {:induction false} CollectKeeps(rows: seq<Row>, ids: seq<JsString>, id: JsString)
    requires Collect(rows, ids).Ok? && id in ids
    ensures id in Collect(rows, ids).value
    decreases |rows|
  {
    hide Classify;
    if rows != [] {
      var found := Classify(rows[0]);
      CollectKeeps(rows[1..], if found.value.None? || found.value.value in ids then ids else ids + [found.value.value], id);
    }
  }

  /** Every row is either skipped or contributes its ID; no row is lost and none is unreadable. */
  lemma {:induction false} CollectFinds(rows: seq<Row>, ids: seq<JsString>, row: Row)
    requires Collect(rows, ids).Ok? && row in rows
    ensures Classify(row).Ok? && (Classify(row).value.Some? ==> Classify(row).value.value in Collect(rows, ids).value)
    decreases |rows|
  {
    hide Classify;
    var found := Classify(rows[0]);
    var more := if found.value.None? || found.value.value in ids then ids else ids + [found.value.value];
    if row == rows[0] {
      if found.value.Some? {
        CollectKeeps(rows[1..], more, found.value.value);
      }
    } else {
      CollectFinds(rows[1..], more, row);
    }
  }

  lemma ClassifyIsTruthful(row: Row, c: Container)
    requires Describes(row, c) && Classify(row).Ok?
    ensures MayWrite(c) ==> Classify(row).value == Some(c.id)
  {
    hide IsActiveState, IsInfrastructure, IsContainerId, IsOneOff, Trim;
  }

  lemma {:induction false} StoppedContainer(world: World, ids: seq<JsString>, c: Container)
    requires c in StopAll(world, ids)
    ensures exists before :: before in world && c == Stopped(before, ids)
    decreases |world|
  {
    hide Stopped;
    if c != Stopped(world[0], ids) {
      StoppedContainer(world[1..], ids, c);
      var before :| before in world[1..] && c == Stopped(before, ids);
      assert before in world;
    }
  }

  lemma ExitedIsInactive()
    ensures !IsActiveState(Js("exited"))
  {
    var s := Js("exited");
    assert s[5] as int == 'd' as int && !IsSpace(s[5]) && !IsSpace(s[0]);
    assert Trim(s) == s by {
      assert SpaceRun(s) == 0 && s[0..] == s;
    }
    assert LowerCase(s)[0] as int == 'e' as int;
    assert forall state :: state in ACTIVE_STATES ==> state[0] as int != 'e' as int;
  }

  /** Once the listed containers are stopped, nothing active can write to the data. */
  lemma FenceIsComplete(inventory: Inventory, world: World)
    requires IsInventoryOf(inventory, world) && RestoreApplicationContainerIds(inventory).Ok?
    ensures Quiet(StopAll(world, RestoreApplicationContainerIds(inventory).value))
  {
    hide IsActiveState, IsInfrastructure, Classify, Describes, Js;
    var ids := RestoreApplicationContainerIds(inventory).value;
    forall c | c in StopAll(world, ids)
      ensures !MayWrite(c)
    {
      StoppedContainer(world, ids, c);
      var before :| before in world && c == Stopped(before, ids);
      if before.id in ids {
        ExitedIsInactive();
      } else {
        assert inventory.Rows?;
        var row :| row in inventory.rows && Describes(row, before);
        CollectFinds(inventory.rows, [], row);
        ClassifyIsTruthful(row, before);
      }
    }
  }

  /** Only IDs of rows that must be stopped are listed, each once. */
  lemma {:induction false} CollectOnlyFinds(rows: seq<Row>, ids: seq<JsString>)
    requires Collect(rows, ids).Ok? && forall i, j :: 0 <= i < j < |ids| ==> ids[i] != ids[j]
    ensures var r := Collect(rows, ids).value;
            && (forall i, j :: 0 <= i < j < |r| ==> r[i] != r[j])
            && (forall id :: id in r ==> id in ids || exists row :: row in rows && Classify(row) == Ok(Some(id)))
    decreases |rows|
  {
    hide Classify;
    if rows != [] {
      var found := Classify(rows[0]);
      var more := if found.value.None? || found.value.value in ids then ids else ids + [found.value.value];
      CollectOnlyFinds(rows[1..], more);
      forall id | id in Collect(rows, ids).value && id !in ids
        ensures exists row :: row in rows && Classify(row) == Ok(Some(id))
      {
        if id in more {
          assert Classify(rows[0]) == Ok(Some(id)) && rows[0] in rows;
        } else {
          var row :| row in rows[1..] && Classify(row) == Ok(Some(id));
          assert row in rows;
        }
      }
    }
  }
}
