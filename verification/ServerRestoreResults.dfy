/** Which containers the fence of a restore stops, row by row and label by tag. */
module ServerRestoreResults {
  import opened JsStrings
  import opened TextLines
  import opened EnvTopology
  import opened ServerRestore

  // ------------------------------------------------------------ one row

  /** The row's container is one to be stopped: active, and not one of the infrastructure unless it is a one-off. */
  predicate MustStop(row: Row) {
    && row.state.Text? && IsActiveState(row.state.text) && row.service.Text?
    && (!IsInfrastructure(row.service.text) || IsOneOff(row.labels) == Ok(true))
  }

  /** The row tells whether its container must be stopped. */
  predicate Tells(row: Row) {
    && row.state.Text? && Trim(row.state.text) != []
    && (IsActiveState(row.state.text) ==>
        row.service.Text? && (IsInfrastructure(row.service.text) ==> IsOneOff(row.labels).Ok?))
  }

  predicate HasId(row: Row) {
    row.id.Text? && IsContainerId(Trim(row.id.text))
  }

  const HEX_UNITS := Js("0123456789abcdefABCDEF")

  lemma HexUnit(c: CodeUnit)
    ensures c in HEX_UNITS <==> 0x30 <= c <= 0x39 || 0x41 <= c <= 0x46 || 0x61 <= c <= 0x66
  {
    assert forall k: int :: 0 <= k < 10 ==> HEX_UNITS[k] as int == 0x30 + k;
    assert forall k: int :: 10 <= k < 16 ==> HEX_UNITS[k] as int == 0x61 + (k - 10);
    assert forall k: int :: 16 <= k < 22 ==> HEX_UNITS[k] as int == 0x41 + (k - 16);
    if 0x30 <= c <= 0x39 {
      assert HEX_UNITS[c as int - 0x30] == c;
    } else if 0x41 <= c <= 0x46 {
      assert HEX_UNITS[16 + (c as int - 0x41)] == c;
    } else if 0x61 <= c <= 0x66 {
      assert HEX_UNITS[10 + (c as int - 0x61)] == c;
    }
  }

  /** The ID of a container: 12 to 64 hexadecimal digits. */
  lemma ContainerIdExactly(id: JsString)
    ensures IsContainerId(id) <==> !(|id| < 12) && !(|id| > 64) && forall c :: c in id ==> c in HEX_UNITS
  {
    hide HEX_UNITS;
    forall c: CodeUnit
      ensures c in HEX_UNITS <==> IsDigit(c) || 0x41 <= c <= 0x46 || 0x61 <= c <= 0x66
    {
      HexUnit(c);
    }
  }

  lemma BlankIsInactive(state: JsString)
    ensures IsActiveState(state) ==> Trim(state) != []
  {
    hide Trim;
    assert forall word :: word in ACTIVE_STATES ==> word != [];
  }

  /** A row gives its ID, nothing, or a refusal. */
  lemma ClassifyExactly(row: Row, id: JsString)
    ensures Classify(row) == Ok(Some(id)) <==> MustStop(row) && HasId(row) && id == Trim(row.id.text)
    ensures Classify(row) == Ok(None) <==> Tells(row) && !MustStop(row)
    ensures Classify(row).Failed? <==> !Tells(row) || (MustStop(row) && !HasId(row))
  {
    hide Trim, IsActiveState, IsInfrastructure, IsOneOff, IsContainerId;
    if row.state.Text? {
      BlankIsInactive(row.state.text);
    }
  }

  // ------------------------------------------------------------ all rows

  lemma {:induction false} CollectFailsExactly(rows: seq<Row>, ids: seq<JsString>)
    ensures Collect(rows, ids).Failed? <==> exists row :: row in rows && Classify(row).Failed?
    decreases |rows|
  {
    hide Classify;
    if rows != [] {
      var found := Classify(rows[0]);
      assert rows == [rows[0]] + rows[1..];
      assert found.Failed? ==> rows[0] in rows;
      if found.Ok? {
        CollectFailsExactly(rows[1..], if found.value.None? || found.value.value in ids then ids else ids + [found.value.value]);
      }
    }
  }

  /**
   The listing succeeds exactly when there is nothing to list, or there are rows
   that all tell what must be stopped, and it names those containers.
   */
  lemma ListsExactly(inventory: Inventory, id: JsString)
    ensures var r := RestoreApplicationContainerIds(inventory);
            match inventory
            case Nothing => r == Ok([])
            case Unreadable => r == Failed
            case Rows(rows) =>
              && (r.Ok? <==> rows != [] && forall row :: row in rows ==> Tells(row) && (MustStop(row) ==> HasId(row)))
              && (r.Ok? ==> (id in r.value <==> exists row :: row in rows && MustStop(row) && HasId(row) && id == Trim(row.id.text)))
  {
    hide Classify, Collect, Tells, MustStop, HasId;
    if inventory.Rows? {
      var rows := inventory.rows;
      CollectFailsExactly(rows, []);
      forall row
        ensures Classify(row).Failed? <==> !Tells(row) || (MustStop(row) && !HasId(row))
      {
        ClassifyExactly(row, id);
      }
      if rows != [] && Collect(rows, []).Ok? {
        ListedIds(rows, id);
      }
    }
  }

  lemma ListedIds(rows: seq<Row>, id: JsString)
    requires Collect(rows, []).Ok?
    ensures id in Collect(rows, []).value <==> exists row :: row in rows && MustStop(row) && HasId(row) && id == Trim(row.id.text)
  {
    hide Classify, Collect, Tells, MustStop, Trim;
    CollectOnlyFinds(rows, []);
    forall row | row in rows
      ensures Classify(row).Ok? && (Classify(row) == Ok(Some(id)) ==> id in Collect(rows, []).value)
      ensures Classify(row) == Ok(Some(id)) <==> MustStop(row) && HasId(row) && id == Trim(row.id.text)
      ensures MustStop(row) ==> HasId(row)
    {
      CollectFinds(rows, [], row);
      ClassifyExactly(row, id);
    }
  }

  /**
   A container that all rows with its ID describe is stopped exactly when it may
   write, so an infrastructure service of the project keeps running.
   */
  lemma StopsExactly(rows: seq<Row>, c: Container)
    requires Collect(rows, []).Ok? && exists row :: row in rows && Describes(row, c)
    requires forall row :: row in rows && row.id.Text? && Trim(row.id.text) == c.id ==> Describes(row, c)
    ensures c.id in Collect(rows, []).value <==> MayWrite(c)
  {
    hide Classify, Collect, Trim, IsActiveState, IsInfrastructure, IsOneOff;
    ListedIds(rows, c.id);
    var row :| row in rows && Describes(row, c);
    forall other | other in rows && Describes(other, c)
      ensures (MustStop(other) <==> MayWrite(c)) && (MustStop(other) ==> HasId(other)) && Trim(other.id.text) == c.id
    {
      CollectFinds(rows, [], other);
      ClassifyExactly(other, c.id);
    }
  }

  // ------------------------------------------------------------ labels

  /** One label of the text form, as it is printed. */
  datatype Label = Pair(name: JsString, value: JsString) | Bare(text: JsString)

  function Printed(tag: Label): JsString {
    match tag
    case Pair(name, value) => name + ([EQUALS] + value)
    case Bare(text) => text
  }

  predicate IsPrintable(tag: Label) {
    match tag
    case Pair(name, value) => EQUALS !in name && COMMA !in name && COMMA !in value
    case Bare(text) => EQUALS !in text && COMMA !in text
  }

  function PrintedAll(labels: seq<Label>): JsString
    requires labels != []
    decreases |labels|
  {
    if |labels| == 1 then Printed(labels[0]) else Printed(labels[0]) + ([COMMA] + PrintedAll(labels[1..]))
  }

  function AllPrinted(labels: seq<Label>): (r: seq<JsString>)
    decreases |labels|
  {
    if labels == [] then [] else [Printed(labels[0])] + AllPrinted(labels[1..])
  }

  lemma {:induction false} IndexIs(front: JsString, c: CodeUnit, back: JsString)
    requires c !in front
    ensures IndexOf(front + ([c] + back), c) == |front| && IndexOf(front, c) == |front|
    decreases |front|
  {
    if front == [] {
      assert front + ([c] + back) == [c] + back;
    } else {
      assert front[0] in front;
      assert (front + ([c] + back))[1..] == front[1..] + ([c] + back);
      IndexIs(front[1..], c, back);
    }
  }

  lemma PrintedHasNoComma(tag: Label)
    requires IsPrintable(tag)
    ensures COMMA !in Printed(tag)
  {}

  lemma {:induction false} SplitPrinted(labels: seq<Label>)
    requires labels != [] && forall i :: 0 <= i < |labels| ==> IsPrintable(labels[i])
    ensures SplitOn(PrintedAll(labels), COMMA) == AllPrinted(labels)
    decreases |labels|
  {
    hide IndexOf, Printed, IsPrintable;
    var first := Printed(labels[0]);
    PrintedHasNoComma(labels[0]);
    if |labels| == 1 {
      IndexIs(first, COMMA, []);
      assert AllPrinted(labels[1..]) == [];
    } else {
      var rest := PrintedAll(labels[1..]);
      var all := first + ([COMMA] + rest);
      IndexIs(first, COMMA, rest);
      assert all[..|first|] == first && all[|first| + 1..] == rest;
      SplitPrinted(labels[1..]);
    }
  }

  /** The label that tells whether a container is a one-off. */
  predicate IsMark(tag: Label) {
    tag.Pair? && Trim(tag.name) == Js("com.docker.compose.oneoff")
  }

  lemma PrintedValue(tag: Label)
    requires IsPrintable(tag)
    ensures LabelValue(Printed(tag)) == if IsMark(tag) then [Trim(tag.value)] else []
  {
    hide Trim, IndexOf;
    match tag
    case Pair(name, value) =>
      IndexIs(name, EQUALS, value);
      var text := name + ([EQUALS] + value);
      assert text[..|name|] == name && text[|name| + 1..] == value;
    case Bare(text) =>
      IndexIs(text, EQUALS, []);
  }

  function Marks(labels: seq<Label>): seq<JsString>
    decreases |labels|
  {
    if labels == [] then [] else (if IsMark(labels[0]) then [Trim(labels[0].value)] else []) + Marks(labels[1..])
  }

  lemma {:induction false} PrintedMarks(labels: seq<Label>)
    requires forall i :: 0 <= i < |labels| ==> IsPrintable(labels[i])
    ensures LabelValues(AllPrinted(labels)) == Marks(labels)
    decreases |labels|
  {
    hide LabelValue, Printed, IsPrintable, IsMark, Trim;
    if labels != [] {
      PrintedValue(labels[0]);
      PrintedMarks(labels[1..]);
      assert AllPrinted(labels)[1..] == AllPrinted(labels[1..]);
    }
  }

  predicate SaysWord(text: JsString, word: string)
    requires forall i :: 0 <= i < |word| ==> word[i] as int < 0x80
  {
    LowerCase(Trim(text)) == Js(word)
  }

  /**
   The text form of the labels tells that a container is a one-off, or that it
   is not, exactly when one label has the name, and its value says so.
   */
  lemma LabelTextExactly(labels: seq<Label>, flag: bool)
    requires labels != [] && forall i :: 0 <= i < |labels| ==> IsPrintable(labels[i])
    ensures IsOneOff(LabelText(PrintedAll(labels))) == Ok(flag) <==>
              |Marks(labels)| == 1 && SaysWord(Marks(labels)[0], if flag then "true" else "false")
  {
    hide Trim, SplitOn, LabelValues, PrintedAll, AllPrinted, Marks, LowerCase;
    SplitPrinted(labels);
    PrintedMarks(labels);
    assert TRUE[0] != FALSE[0];
  }

  /** The object form does so with a flag or a text. */
  lemma LabelObjectExactly(fields: map<JsString, Json>, flag: bool)
    ensures IsOneOff(LabelObject(fields)) == Ok(flag) <==>
              && ONE_OFF_LABEL in fields
              && (fields[ONE_OFF_LABEL] == Flag(flag)
                  || (fields[ONE_OFF_LABEL].Text?
                      && SaysWord(fields[ONE_OFF_LABEL].text, if flag then "true" else "false")))
    ensures IsOneOff(NoLabels) == Failed
  {
    hide Trim, LowerCase;
    assert TRUE[0] != FALSE[0];
  }
}
