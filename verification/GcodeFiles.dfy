/**
 The stored files: two lists of the printer's reply merged into one, and the guard on starting one.
 */
module GcodeFiles {
  import opened Sequences
  import opened Snapshots

  // ── the reply ────────────────────────────────────────────────────────────────────────────

  /** A float, the rounding left aside. */
  datatype Float = Finite(x: real) | Infinity | MinusInfinity | NotANumber

  datatype Json =
    | Null
    | Bool(b: bool)
    | Integer(n: int)            // of any size: Python reads an integer literal as it is
    | Floating(f: Float)
    | Str(s: string)
    | List(items: seq<Json>)
    | Dict(entries: map<string, Json>)

  type Object = map<string, Json>

  function Get(o: Object, key: string): Json {
    if key in o then o[key] else Null
  }

  predicate Truthy(v: Json) {
    match v
    case Null => false
    case Bool(b) => b
    case Integer(n) => n != 0
    case Floating(f) => f != Finite(0.0)
    case Str(s) => s != ""
    case List(items) => items != []
    case Dict(entries) => entries != map[]
  }

  function AsStr(v: Json): string {
    if v.Str? then v.s else ""
  }

  /** How Python reads a number written as text, as an int and as a float, and rounds an int to a float. */
  datatype Numbers = Numbers(intOf: string -> Option<int>, floatOf: string -> Option<Float>, nearest: int -> real)

  function AsInt(v: Json, numbers: Numbers): Option<int> {
    match v
    case Bool(b) => Some(if b then 1 else 0)
    case Integer(n) => Some(n)
    case Floating(f) => if f.Finite? && f.x == f.x.Floor as real then Some(f.x.Floor) else None
    case Str(s) => numbers.intOf(s)
    case _ => None
  }

  function Power(base: nat, n: nat): nat {
    if n == 0 then 1 else base * Power(base, n - 1)
  }

  /** Half a step above the largest float: from here on `float` of an int overflows. */
  function FloatLimit(): int {
    Power(2, 1024) - Power(2, 970)
  }

  /** An integer too large for a float, on which `as_float` raises. */
  predicate Overflows(v: Json) {
    v.Integer? && (v.n >= FloatLimit() || -v.n >= FloatLimit())
  }

  function AsFloat(v: Json, numbers: Numbers): Result<Option<Float>> {
    match v
    case Integer(n) => if Overflows(v) then Raise(OverflowError) else Ok(Some(Finite(numbers.nearest(n))))
    case Floating(f) => Ok(Some(f))
    case Str(s) => Ok(numbers.floatOf(s))
    case _ => Ok(None)
  }

  // ── one file ─────────────────────────────────────────────────────────────────────────────

  datatype Tool = Tool(
    toolId: Option<int>,
    slotId: Option<int>,
    material: string,
    color: string,
    weightG: Option<Float>)

  datatype File = File(
    name: string,
    printingTimeS: Option<int>,
    filamentWeightG: Option<Float>,
    toolCount: Option<int>,
    usesMaterialStation: bool,
    tools: seq<Tool>)

  /** Iterating over a number or a boolean raises a TypeError, converting too large an integer to a float
      an OverflowError. */
  datatype Error = TypeError | OverflowError

  datatype Result<+T> = Ok(value: T) | Raise(error: Error)

  /** An entry with a material worth showing. */
  predicate ShowsTool(entry: Json) {
    entry.Dict? &&
    (AsStr(Get(entry.entries, "materialName")) != "" || AsStr(Get(entry.entries, "materialColor")) != "")
  }

  function ToolOf(entry: Json, numbers: Numbers): Result<Tool>
    requires ShowsTool(entry)
  {
    var weight := AsFloat(Get(entry.entries, "filamentWeight"), numbers);
    if weight.Raise? then Raise(weight.error)
    else
      Ok(Tool(AsInt(Get(entry.entries, "toolId"), numbers), AsInt(Get(entry.entries, "slotId"), numbers),
              AsStr(Get(entry.entries, "materialName")), AsStr(Get(entry.entries, "materialColor")),
              weight.value))
  }

  function ToolsOf(items: seq<Json>, numbers: Numbers): Result<seq<Tool>> {
    if items == [] then Ok([])
    else if !ShowsTool(items[0]) then ToolsOf(items[1..], numbers)
    else
      var tool := ToolOf(items[0], numbers);
      if tool.Raise? then Raise(tool.error)
      else
        var more := ToolsOf(items[1..], numbers);
        if more.Raise? then more else Ok([tool.value] + more.value)
  }

  /** Tool data that is there but cannot be iterated over. */
  predicate Uniterable(tools: Json) {
    Truthy(tools) && (tools.Bool? || tools.Integer? || tools.Floating?)
  }

  function ToolDataOf(tools: Json, numbers: Numbers): Result<seq<Tool>> {
    if Uniterable(tools) then Raise(TypeError) else ToolsOf(ItemsOf(tools), numbers)
  }

  function FileOf(name: string, entry: Object, numbers: Numbers): Result<File> {
    var tools := ToolDataOf(Get(entry, "gcodeToolDatas"), numbers);
    var weight := AsFloat(Get(entry, "totalFilamentWeight"), numbers);
    if tools.Raise? then Raise(tools.error)
    else if weight.Raise? then Raise(weight.error)
    else
      Ok(File(name,
              AsInt(Get(entry, "printingTime"), numbers),
              weight.value,
              AsInt(Get(entry, "gcodeToolCnt"), numbers),
              Truthy(Get(entry, "useMatlStation")),
              tools.value))
  }

  // ── the merged list ──────────────────────────────────────────────────────────────────────

  /** The file an entry of the detail list is about; empty when it names none. */
  function DetailName(entry: Json): string {
    if entry.Dict? then AsStr(Get(entry.entries, "gcodeFileName")) else ""
  }

  /** The names of the detail list, each where it is first seen. */
  function DetailNames(detail: seq<Json>): seq<string> {
    if detail == [] then []
    else
      var front, name := DetailNames(detail[..|detail| - 1]), DetailName(Last(detail));
      if name == "" || name in front then front else front + [name]
  }

  /** The first detail entry about `name`; an empty one when there is none. */
  function DetailOf(detail: seq<Json>, name: string): Object {
    if detail == [] then map[]
    else if detail[0].Dict? && DetailName(detail[0]) == name then detail[0].entries
    else DetailOf(detail[1..], name)
  }

  function ListedNames(list: seq<Json>): seq<string> {
    if list == [] then []
    else
      var front := ListedNames(list[..|list| - 1]);
      if AsStr(Last(list)) == "" then front else front + [AsStr(Last(list))]
  }

  function Without(names: seq<string>, known: seq<string>): seq<string> {
    if names == [] then []
    else
      var front := Without(names[..|names| - 1], known);
      if Last(names) in known then front else front + [Last(names)]
  }

  function ItemsOf(v: Json): seq<Json> {
    if v.List? then v.items else []
  }

  function FileNames(list: seq<Json>, detail: seq<Json>): seq<string> {
    ListedNames(list) + Without(DetailNames(detail), ListedNames(list))
  }

  /** The files up to the first one that cannot be read; what that raises ends the call. */
  function FilesOf(names: seq<string>, detail: seq<Json>, numbers: Numbers): Result<seq<File>> {
    if names == [] then Ok([])
    else
      var front := FilesOf(names[..|names| - 1], detail, numbers);
      if front.Raise? then front
      else
        var file := FileOf(Last(names), DetailOf(detail, Last(names)), numbers);
        if file.Raise? then Raise(file.error) else Ok(front.value + [file.value])
  }

  function ParseGcodeFiles(body: Json, numbers: Numbers): Result<seq<File>> {
    if !body.Dict? then Ok([])
    else
      var list, detail := ItemsOf(Get(body.entries, "gcodeList")), ItemsOf(Get(body.entries, "gcodeListDetail"));
      FilesOf(FileNames(list, detail), detail, numbers)
  }

  // ── the loops ────────────────────────────────────────────────────────────────────────────

  lemma {:induction false} DetailOfSnoc(detail: seq<Json>, e: Json, name: string)
    requires name != ""
    ensures DetailOf(detail + [e], name) ==
            if name in DetailNames(detail) then DetailOf(detail, name)
            else if DetailName(e) == name then e.entries else map[]
    ensures name !in DetailNames(detail) ==> DetailOf(detail, name) == map[]
    decreases |detail|
  {
    if detail == [] {
      assert detail + [e] == [e];
      assert [e][1..] == [];
    } else {
      assert (detail + [e])[1..] == detail[1..] + [e];
      DetailOfSnoc(detail[1..], e, name);
      DetailNamesMembers(detail, name);
      DetailNamesMembers(detail[1..], name);
      assert forall d :: d in detail <==> d == detail[0] || d in detail[1..];
    }
  }

  /** A name is listed exactly when some entry is about it. */
  lemma {:induction false} DetailNamesMembers(detail: seq<Json>, name: string)
    ensures name in DetailNames(detail) <==> name != "" && exists e :: e in detail && DetailName(e) == name
  {
    if detail != [] {
      DetailNamesMembers(detail[..|detail| - 1], name);
      assert forall d :: d in detail <==> d == Last(detail) || d in detail[..|detail| - 1];
    }
  }

  method ParseGcodeFilesLoop(body: Json, numbers: Numbers) returns (r: Result<seq<File>>)
    ensures r == ParseGcodeFiles(body, numbers)
  {
    if !body.Dict? {
      return Ok([]);
    }
    var detailByName: map<string, Object> := map[];
    var order: seq<string> := [];
    var detail := ItemsOf(Get(body.entries, "gcodeListDetail"));
    var i := 0;
    while i < |detail|
      invariant i <= |detail|
      invariant order == DetailNames(detail[..i])
      invariant forall name :: name in detailByName <==> name in order
      invariant forall name | name in order :: name != "" && detailByName[name] == DetailOf(detail[..i], name)
    {
      assert detail[..i + 1] == detail[..i] + [detail[i]];
      assert detail[..i + 1][..i] == detail[..i];
      forall name | name != ""
        ensures DetailOf(detail[..i + 1], name) ==
                if name in order then DetailOf(detail[..i], name)
                else if DetailName(detail[i]) == name then detail[i].entries else map[]
      {
        DetailOfSnoc(detail[..i], detail[i], name);
      }
      var entry := detail[i];
      i := i + 1;
      if !entry.Dict? {
        continue;
      }
      var name := AsStr(Get(entry.entries, "gcodeFileName"));
      if name != "" && name !in detailByName {
        detailByName := detailByName[name := entry.entries];
        order := order + [name];
      }
    }
    assert detail[..i] == detail;
    var list := ItemsOf(Get(body.entries, "gcodeList"));
    DistinctDetailNames(detail);
    var names := MergeNames(list, order);
    forall name | name in names
      ensures DetailOf(detail, name) == if name in detailByName then detailByName[name] else map[]
    {
      ListedNamesMembers(list, name);
      WithoutMembers(order, ListedNames(list), name);
      DetailOfSnoc(detail, Null, name);
    }
    r := BuildFiles(names, detail, detailByName, numbers);
  }

  method MergeNames(list: seq<Json>, order: seq<string>) returns (names: seq<string>)
    requires forall j, k | 0 <= j < k < |order| :: order[j] != order[k]
    ensures names == ListedNames(list) + Without(order, ListedNames(list))
  {
    names := [];
    var i := 0;
    while i < |list|
      invariant i <= |list| && names == ListedNames(list[..i])
    {
      assert list[..i + 1][..i] == list[..i];
      if list[i].Str? && list[i].s != "" {
        names := names + [list[i].s];
      }
      i := i + 1;
    }
    assert list[..i] == list;
    ghost var listed := names;
    i := 0;
    while i < |order|
      invariant i <= |order| && names == listed + Without(order[..i], listed)
      invariant forall n | n in Without(order[..i], listed) :: n in order[..i]
    {
      assert order[..i + 1][..i] == order[..i];
      assert order[i] !in order[..i];
      if order[i] !in names {
        names := names + [order[i]];
      }
      i := i + 1;
    }
    assert order[..i] == order;
  }

  method BuildFiles(names: seq<string>, ghost detail: seq<Json>, detailByName: map<string, Object>,
                    numbers: Numbers)
    returns (r: Result<seq<File>>)
    requires forall name | name in names ::
               DetailOf(detail, name) == if name in detailByName then detailByName[name] else map[]
    ensures r == FilesOf(names, detail, numbers)
  {
    var files: seq<File> := [];
    var i := 0;
    while i < |names|
      invariant i <= |names| && FilesOf(names[..i], detail, numbers) == Ok(files)
    {
      assert names[..i + 1][..i] == names[..i];
      assert names[i] in names;
      var entry := if names[i] in detailByName then detailByName[names[i]] else map[];
      var file := FileInPlace(names[i], entry, numbers);
      if file.Raise? {
        FilesFail(names, detail, numbers, i + 1);
        return Raise(file.error);
      }
      files := files + [file.value];
      i := i + 1;
    }
    assert names[..i] == names;
    return Ok(files);
  }

  /** The tools in one pass, then the file. */
  method FileInPlace(name: string, entry: Object, numbers: Numbers) returns (r: Result<File>)
    ensures r == FileOf(name, entry, numbers)
  {
    var toolData := Get(entry, "gcodeToolDatas");
    if Uniterable(toolData) {
      return Raise(TypeError);
    }
    var items := ItemsOf(toolData);
    var tools: seq<Tool> := [];
    var i := 0;
    assert items[0..] == items;
    PrependNothing(ToolsOf(items, numbers));
    while i < |items|
      invariant i <= |items|
      invariant ToolsOf(items, numbers) == Prepend(tools, ToolsOf(items[i..], numbers))
    {
      assert items[i..][1..] == items[i + 1..];
      if ShowsTool(items[i]) {
        var tool := ToolOf(items[i], numbers);
        if tool.Raise? {
          return Raise(tool.error);
        }
        ghost var rest := ToolsOf(items[i + 1..], numbers);
        assert rest.Ok? ==> tools + ([tool.value] + rest.value) == (tools + [tool.value]) + rest.value;
        tools := tools + [tool.value];
      }
      i := i + 1;
    }
    assert items[i..] == [] && tools + [] == tools;
    var weight := AsFloat(Get(entry, "totalFilamentWeight"), numbers);
    if weight.Raise? {
      return Raise(weight.error);
    }
    return Ok(File(name,
                   AsInt(Get(entry, "printingTime"), numbers),
                   weight.value,
                   AsInt(Get(entry, "gcodeToolCnt"), numbers),
                   Truthy(Get(entry, "useMatlStation")),
                   tools));
  }

  function Prepend<T>(front: seq<T>, r: Result<seq<T>>): Result<seq<T>> {
    if r.Raise? then r else Ok(front + r.value)
  }

  lemma PrependNothing<T>(r: Result<seq<T>>)
    ensures Prepend([], r) == r
  {
    assert r.Ok? ==> [] + r.value == r.value;
  }

  lemma {:induction false} FilesFail(names: seq<string>, detail: seq<Json>, numbers: Numbers, i: nat)
    requires i <= |names| && FilesOf(names[..i], detail, numbers).Raise?
    ensures FilesOf(names, detail, numbers) == FilesOf(names[..i], detail, numbers)
    decreases |names| - i
  {
    if i == |names| {
      assert names[..i] == names;
    } else {
      assert names[..i + 1][..i] == names[..i];
      FilesFail(names, detail, numbers, i + 1);
    }
  }

  // ── what the merge guarantees ────────────────────────────────────────────────────────────

  ghost predicate Distinct(names: seq<string>) {
    forall i, j | 0 <= i < j < |names| :: names[i] != names[j]
  }

  lemma {:induction false} DistinctDetailNames(detail: seq<Json>)
    ensures Distinct(DetailNames(detail))
  {
    if detail != [] {
      DistinctDetailNames(detail[..|detail| - 1]);
    }
  }

  lemma {:induction false} ListedNamesMembers(list: seq<Json>, name: string)
    ensures name in ListedNames(list) <==> name != "" && Str(name) in list
  {
    if list != [] {
      ListedNamesMembers(list[..|list| - 1], name);
      assert forall d :: d in list <==> d == Last(list) || d in list[..|list| - 1];
    }
  }

  lemma {:induction false} WithoutMembers(names: seq<string>, known: seq<string>, name: string)
    ensures name in Without(names, known) <==> name in names && name !in known
  {
    if names != [] {
      WithoutMembers(names[..|names| - 1], known, name);
      assert forall d :: d in names <==> d == Last(names) || d in names[..|names| - 1];
    }
  }

  /** What is left out keeps the order, and a name seen once stays seen once. */
  lemma {:induction false} WithoutKeepsOrder(names: seq<string>, known: seq<string>)
    ensures Subsequence(Without(names, known), names)
    ensures Distinct(names) ==> Distinct(Without(names, known))
  {
    if names == [] {
      SubsequenceOfPrefix<string>([], []);
    } else {
      var front, last := names[..|names| - 1], Last(names);
      assert names == front + [last];
      WithoutKeepsOrder(front, known);
      if last in known {
        SubsequenceOfPrefix(front, names);
        SubsequenceTransitive(Without(front, known), front, names);
      } else {
        SubsequenceOfPrefix([last], [last]);
        SubsequenceAppend(Without(front, known), front, [last], [last]);
        forall i | 0 <= i < |Without(front, known)|
          ensures Distinct(names) ==> Without(front, known)[i] != last
        {
          WithoutMembers(front, known, Without(front, known)[i]);
        }
      }
    }
  }

  /** The first entry about `name` is where it is first seen, and is the one its data comes from. */
  lemma {:induction false} DetailOfFirst(detail: seq<Json>, name: string)
    requires name in DetailNames(detail)
    ensures exists i | 0 <= i < |detail| ::
              && detail[i].Dict? && DetailName(detail[i]) == name && DetailOf(detail, name) == detail[i].entries
              && forall j | 0 <= j < i :: DetailName(detail[j]) != name
    decreases |detail|
  {
    DetailNamesMembers(detail, name);
    hide DetailNames;
    assert detail != [];
    assert forall d :: d in detail <==> d == detail[0] || d in detail[1..];
    if DetailName(detail[0]) != name {
      DetailNamesMembers(detail[1..], name);
      DetailOfFirst(detail[1..], name);
      var i :| 0 <= i < |detail[1..]| && detail[1..][i].Dict? && DetailName(detail[1..][i]) == name
        && DetailOf(detail[1..], name) == detail[1..][i].entries
        && forall j | 0 <= j < i :: DetailName(detail[1..][j]) != name;
      assert forall j | 1 <= j < i + 1 :: detail[j] == detail[1..][j - 1];
      assert detail[i + 1] == detail[1..][i];
    }
  }

  /** A number other than zero, or `true`. */
  predicate NotIterable(v: Json) {
    v == Bool(true) || (v.Integer? && v.n != 0) || (v.Floating? && v.f != Finite(0.0))
  }

  /** An integer of at least half a step above the largest float, 2^1024 - 2^971, or as far below zero. */
  predicate TooLarge(v: Json) {
    v.Integer? && (v.n >= Power(2, 1024) - Power(2, 970) || v.n <= Power(2, 970) - Power(2, 1024))
  }

  predicate Named(entry: Object, key: string) {
    key in entry && entry[key].Str? && entry[key].s != ""
  }

  /** A tool with a material or a color. */
  predicate WorthShowing(item: Json) {
    item.Dict? && (Named(item.entries, "materialName") || Named(item.entries, "materialColor"))
  }

  lemma SameShapes(v: Json)
    ensures Uniterable(v) <==> NotIterable(v)
    ensures Overflows(v) <==> TooLarge(v)
    ensures ShowsTool(v) <==> WorthShowing(v)
  {
    hide Power;
  }

  /** What reading a file's tool data raises: a TypeError for data that cannot be iterated over, an
      OverflowError for a tool worth showing whose weight is too large. */
  predicate ToolsRaise(tools: Json, error: Error) {
    match error
    case TypeError => NotIterable(tools)
    case OverflowError =>
      tools.List? && exists item :: item in tools.items && WorthShowing(item) && TooLarge(Get(item.entries, "filamentWeight"))
  }

  predicate EntryRaises(entry: Object, error: Error) {
    || ToolsRaise(Get(entry, "gcodeToolDatas"), error)
    || (error == OverflowError && TooLarge(Get(entry, "totalFilamentWeight"))
        && !NotIterable(Get(entry, "gcodeToolDatas")))
  }

  /** Reading the file raises. */
  predicate FileRaises(detail: seq<Json>, name: string, error: Error) {
    EntryRaises(DetailOf(detail, name), error)
  }

  /** Reading the list raises: for tool data, or for the weight of a file or of a tool. */
  predicate ListRaises(body: Json) {
    body.Dict? &&
    var list, detail := ItemsOf(Get(body.entries, "gcodeList")), ItemsOf(Get(body.entries, "gcodeListDetail"));
    exists name, error :: name in FileNames(list, detail) && FileRaises(detail, name, error)
  }

  lemma {:induction false} ToolsRaiseExactly(items: seq<Json>, numbers: Numbers)
    ensures var r := ToolsOf(items, numbers);
            && (r.Raise? ==> r.error == OverflowError)
            && (r.Raise? <==>
                  exists item :: item in items && WorthShowing(item) && TooLarge(Get(item.entries, "filamentWeight")))
  {
    hide FloatLimit, TooLarge, WorthShowing, Overflows;
    if items != [] {
      var item := items[0];
      ToolsRaiseExactly(items[1..], numbers);
      assert forall i :: i in items <==> i == item || i in items[1..];
      SameShapes(item);
      if ShowsTool(item) {
        SameShapes(Get(item.entries, "filamentWeight"));
        WeightRaises(Get(item.entries, "filamentWeight"), numbers);
      }
    }
  }

  lemma EntryRaisesExactly(name: string, entry: Object, numbers: Numbers, error: Error)
    ensures FileOf(name, entry, numbers) == Raise(error) <==> EntryRaises(entry, error)
  {
    hide Overflows, ToolsOf, ShowsTool, TooLarge, WorthShowing;
    var tools, weight := Get(entry, "gcodeToolDatas"), Get(entry, "totalFilamentWeight");
    ToolsRaiseExactly(ItemsOf(tools), numbers);
    SameShapes(tools);
    SameShapes(weight);
    assert AsFloat(weight, numbers) == Raise(OverflowError) <==> Overflows(weight) by { WeightRaises(weight, numbers); }
  }

  lemma WeightRaises(v: Json, numbers: Numbers)
    ensures AsFloat(v, numbers) == Raise(OverflowError) <==> Overflows(v)
    ensures AsFloat(v, numbers) != Raise(TypeError)
  {
  }

  /** Some file raises, and none before it: the call raises what that file does. */
  predicate FirstRaises(names: seq<string>, detail: seq<Json>, i: nat, error: Error) {
    && i < |names| && FileRaises(detail, names[i], error)
    && forall j, e | 0 <= j < i :: !FileRaises(detail, names[j], e)
  }

  lemma {:induction false} FilesInOrder(names: seq<string>, detail: seq<Json>, numbers: Numbers)
    ensures var r := FilesOf(names, detail, numbers);
            && (r.Raise? <==> exists name, error :: name in names && FileRaises(detail, name, error))
            && (forall error :: r == Raise(error) <==> exists i: nat :: FirstRaises(names, detail, i, error))
            && (r.Ok? ==> |r.value| == |names| && forall i | 0 <= i < |names| ::
                  Ok(r.value[i]) == FileOf(names[i], DetailOf(detail, names[i]), numbers))
  {
    hide FileOf, FileRaises;
    if names != [] {
      var front, last := names[..|names| - 1], Last(names);
      FilesInOrder(front, detail, numbers);
      assert forall name :: name in names <==> name == last || name in front;
      forall e
        ensures FileOf(last, DetailOf(detail, last), numbers) == Raise(e) <==> FileRaises(detail, last, e)
      {
        FileRaisesExactly(last, detail, numbers, e);
      }
      forall i: nat, e | i < |front|
        ensures FirstRaises(names, detail, i, e) <==> FirstRaises(front, detail, i, e)
      {
        assert forall j | 0 <= j <= i :: names[j] == front[j];
      }
      forall e
        ensures FirstRaises(names, detail, |front|, e) <==>
                FilesOf(front, detail, numbers).Ok? && FileRaises(detail, last, e)
      {
        assert forall j | 0 <= j < |front| :: names[j] == front[j] && front[j] in front;
        assert forall name | name in front :: exists j :: 0 <= j < |front| && names[j] == name;
      }
    }
  }

  lemma FileRaisesExactly(name: string, detail: seq<Json>, numbers: Numbers, error: Error)
    ensures FileOf(name, DetailOf(detail, name), numbers) == Raise(error) <==> FileRaises(detail, name, error)
  {
    EntryRaisesExactly(name, DetailOf(detail, name), numbers, error);
  }

  /** The merged list: the non-empty listed names in order, then each name only the detail list has,
      once, in the order first seen; every file with the data of the first detail entry about it. The
      whole call fails exactly when one of them has tool data that is a number or a true flag, or a weight
      that is an integer too large for a float; with the error of the first such file. */
  lemma MergedFiles(body: Json, numbers: Numbers)
    requires body.Dict?
    ensures var list, detail := ItemsOf(Get(body.entries, "gcodeList")), ItemsOf(Get(body.entries, "gcodeListDetail"));
            var listed, r := ListedNames(list), ParseGcodeFiles(body, numbers);
            var rest := Without(DetailNames(detail), listed);
            && (exists idx: seq<nat> :: NamesAt(idx, list, listed))
            && (forall name :: name in rest <==>
                  name != "" && name !in listed && exists e :: e in detail && DetailName(e) == name)
            && Distinct(rest) && Subsequence(rest, DetailNames(detail))
            && (r.Raise? <==> ListRaises(body)) && FileNames(list, detail) == listed + rest
            && (forall error :: r == Raise(error) <==> exists i: nat :: FirstRaises(listed + rest, detail, i, error))
            && (r.Ok? ==> |r.value| == |listed + rest| && forall i | 0 <= i < |listed + rest| ::
                  && r.value[i].name == (listed + rest)[i]
                  && FileShape(DetailOf(detail, (listed + rest)[i]), r.value[i], numbers))
  {
    hide FileRaises, FileShape, FilesOf, FirstRaises, ListedNames, DetailNames, Without, NamesAt, Subsequence;
    var list, detail := ItemsOf(Get(body.entries, "gcodeList")), ItemsOf(Get(body.entries, "gcodeListDetail"));
    MergedNames(list, detail);
    MergedData(FileNames(list, detail), detail, numbers);
  }

  lemma MergedNames(list: seq<Json>, detail: seq<Json>)
    ensures var listed := ListedNames(list);
            var rest := Without(DetailNames(detail), listed);
            && (exists idx: seq<nat> :: NamesAt(idx, list, listed))
            && (forall name :: name in rest <==>
                  name != "" && name !in listed && exists e :: e in detail && DetailName(e) == name)
            && Distinct(rest) && Subsequence(rest, DetailNames(detail))
  {
    hide NamesAt, Subsequence, ListedNames, DetailNames, Without;
    var listed := ListedNames(list);
    forall name: string
      ensures name in Without(DetailNames(detail), listed) <==>
                name != "" && name !in listed && exists e :: e in detail && DetailName(e) == name
    {
      WithoutMembers(DetailNames(detail), listed, name);
      DetailNamesMembers(detail, name);
    }
    DistinctDetailNames(detail);
    WithoutKeepsOrder(DetailNames(detail), listed);
    var idx := ListedInOrder(list);
    assert NamesAt(idx, list, listed);
  }

  lemma MergedData(names: seq<string>, detail: seq<Json>, numbers: Numbers)
    ensures var r := FilesOf(names, detail, numbers);
            && (r.Raise? <==> exists name, error :: name in names && FileRaises(detail, name, error))
            && (forall error :: r == Raise(error) <==> exists i: nat :: FirstRaises(names, detail, i, error))
            && (r.Ok? ==> |r.value| == |names| && forall i | 0 <= i < |names| ::
                  r.value[i].name == names[i] && FileShape(DetailOf(detail, names[i]), r.value[i], numbers))
  {
    hide FileOf, FileShape, FilesOf, FileRaises, FirstRaises;
    FilesInOrder(names, detail, numbers);
    var r := FilesOf(names, detail, numbers);
    if r.Ok? {
      forall i | 0 <= i < |names|
        ensures r.value[i].name == names[i] && FileShape(DetailOf(detail, names[i]), r.value[i], numbers)
      {
        FileReadExactly(names[i], DetailOf(detail, names[i]), r.value[i], numbers);
      }
    }
  }

  /** `idx` lists, in order, the positions of the non-empty texts, and `names` those texts. */
  ghost predicate NamesAt(idx: seq<nat>, list: seq<Json>, names: seq<string>) {
    && |idx| == |names|
    && (forall j, k | 0 <= j < k < |idx| :: idx[j] < idx[k])
    && (forall k | 0 <= k < |idx| :: idx[k] < |list| && list[idx[k]] == Str(names[k]))
    && (forall i | 0 <= i < |list| :: list[i].Str? && list[i].s != "" <==> i in idx)
  }

  lemma {:induction false} ListedInOrder(list: seq<Json>) returns (idx: seq<nat>)
    ensures NamesAt(idx, list, ListedNames(list))
  {
    if list == [] {
      return [];
    }
    hide NamesAt;
    var n := |list| - 1;
    var front := ListedInOrder(list[..n]);
    if AsStr(list[n]) == "" {
      idx := front;
      NamesAtSkip(idx, list, ListedNames(list));
    } else {
      idx := front + [n];
      NamesAtNext(front, list, ListedNames(list[..n]));
    }
  }

  lemma NamesAtSkip(idx: seq<nat>, list: seq<Json>, names: seq<string>)
    requires list != [] && AsStr(Last(list)) == "" && NamesAt(idx, list[..|list| - 1], names)
    ensures NamesAt(idx, list, names)
  {
    assert forall i | 0 <= i < |list| - 1 :: list[..|list| - 1][i] == list[i];
  }

  lemma NamesAtNext(front: seq<nat>, list: seq<Json>, names: seq<string>)
    requires list != [] && AsStr(Last(list)) != "" && NamesAt(front, list[..|list| - 1], names)
    ensures NamesAt(front + [|list| - 1], list, names + [AsStr(Last(list))])
  {
    var n := |list| - 1;
    var idx, more, before := front + [n], names + [AsStr(list[n])], list[..n];
    forall i | 0 <= i < |list|
      ensures list[i].Str? && list[i].s != "" <==> i in idx
    {
      if i < n {
        assert before[i] == list[i] && (i in idx <==> i in front);
      } else {
        assert idx[|front|] == n;
      }
    }
    forall k | 0 <= k < |idx|
      ensures idx[k] < |list| && list[idx[k]] == Str(more[k])
    {
      if k < |front| {
        assert before[front[k]] == list[front[k]];
      }
    }
  }

  lemma RaisesExactly(body: Json, numbers: Numbers)
    ensures ParseGcodeFiles(body, numbers).Raise? <==> ListRaises(body)
  {
    if body.Dict? {
      MergedFiles(body, numbers);
    }
  }

  lemma {:induction false} PowerMonotone(a: nat, b: nat, n: nat)
    requires a <= b
    ensures Power(a, n) <= Power(b, n)
  {
    if n > 0 {
      PowerMonotone(a, b, n - 1);
      ProductMonotone(a, b, Power(a, n - 1), Power(b, n - 1));
    }
  }

  lemma ProductMonotone(a: nat, b: nat, x: nat, y: nat)
    requires a <= b && x <= y
    ensures a * x <= b * y
  {
    assert a * x <= a * y <= b * y;
  }

  lemma {:induction false} EightIsThreeTwos(n: nat)
    ensures Power(8, n) == Power(2, 3 * n)
  {
    if n > 0 {
      EightIsThreeTwos(n - 1);
      var m := 3 * (n - 1);
      assert Power(2, m + 3) == 2 * Power(2, m + 2) == 4 * Power(2, m + 1) == 8 * Power(2, m);
    }
  }

  lemma {:induction false} PowerGrows(m: nat, n: nat)
    requires m <= n
    ensures 1 <= Power(2, m) <= Power(2, n)
    decreases n
  {
    if m < n {
      PowerGrows(m, n - 1);
    } else if n > 0 {
      PowerGrows(n - 1, n - 1);
    }
  }

  /** A one followed by four hundred zeros is too large for a float. */
  lemma TenToTheFourHundred()
    ensures Power(10, 400) >= FloatLimit() > 0
  {
    hide Power;
    PowerMonotone(8, 10, 400);
    EightIsThreeTwos(400);
    PowerGrows(1024, 3 * 400);
    PowerGrows(970, 1023);
    assert Power(2, 1024) == 2 * Power(2, 1023) by { PowerStep(2, 1024); }
    PowerGrows(0, 970);
  }

  lemma PowerStep(base: nat, n: nat)
    requires n > 0
    ensures Power(base, n) == base * Power(base, n - 1)
  {
  }

  /** One file whose weight is a one followed by four hundred zeros, and no tool data at all: the whole
      list is lost. */
  lemma HugeWeightRaises(numbers: Numbers)
    ensures var entry := Dict(map["gcodeFileName" := Str("a"), "totalFilamentWeight" := Integer(Power(10, 400))]);
            var body := Dict(map["gcodeList" := List([Str("a")]), "gcodeListDetail" := List([entry])]);
            ParseGcodeFiles(body, numbers) == Raise(OverflowError)
  {
    hide FloatLimit;
    TenToTheFourHundred();
    hide Power;
    var entry: Object := map["gcodeFileName" := Str("a"), "totalFilamentWeight" := Integer(Power(10, 400))];
    var detail := [Dict(entry)];
    var body := Dict(map["gcodeList" := List([Str("a")]), "gcodeListDetail" := List(detail)]);
    var names := FileNames([Str("a")], detail);
    assert DetailName(detail[0]) == "a" && DetailOf(detail, "a") == entry;
    assert names[0] == "a" by {
      assert [Str("a")][..0] == [];
      assert ListedNames([Str("a")]) == ["a"];
    }
    assert Overflows(Get(entry, "totalFilamentWeight"));
    SameShapes(Get(entry, "totalFilamentWeight"));
    assert FileRaises(detail, "a", OverflowError);
    assert FirstRaises(names, detail, 0, OverflowError);
    FilesInOrder(names, detail, numbers);
  }

  function NamesOf(files: seq<File>): seq<string> {
    seq(|files|, i requires 0 <= i < |files| => files[i].name)
  }

  // ── reading back a whole list ────────────────────────────────────────────────────────────

  /** `v` is one of the forms in which the firmware may give the integer `n`, or anything else for none. */
  ghost predicate IntShape(v: Json, n: Option<int>, numbers: Numbers) {
    match v
    case Bool(b) => n == Some(if b then 1 else 0)
    case Integer(m) => n == Some(m)
    case Floating(Finite(x)) => if n.Some? then x == n.value as real else x.Floor as real < x
    case Str(s) => n == numbers.intOf(s)
    case _ => n.None?
  }

  predicate FloatShape(v: Json, f: Option<Float>, numbers: Numbers) {
    match v
    case Integer(n) => !TooLarge(v) && f == Some(Finite(numbers.nearest(n)))
    case Floating(x) => f == Some(x)
    case Str(s) => f == numbers.floatOf(s)
    case _ => f.None?
  }

  predicate FlagShape(v: Json, b: bool) {
    b <==>
      || v == Bool(true) || (v.Integer? && v.n != 0) || (v.Floating? && v.f != Finite(0.0))
      || (v.Str? && v.s != "") || (v.List? && v.items != []) || (v.Dict? && v.entries != map[])
  }

  /** Anything but text reads as the empty text. */
  predicate TextShape(v: Json, text: string) {
    v == Str(text) || (!v.Str? && text == "")
  }

  ghost predicate ToolShape(item: Json, t: Tool, numbers: Numbers) {
    && item.Dict? && (t.material != "" || t.color != "")
    && IntShape(Get(item.entries, "toolId"), t.toolId, numbers)
    && IntShape(Get(item.entries, "slotId"), t.slotId, numbers)
    && TextShape(Get(item.entries, "materialName"), t.material)
    && TextShape(Get(item.entries, "materialColor"), t.color)
    && FloatShape(Get(item.entries, "filamentWeight"), t.weightG, numbers)
  }

  /** The items worth showing are the tools, in order. */
  ghost predicate ToolItems(items: seq<Json>, tools: seq<Tool>, numbers: Numbers) {
    if items == [] then tools == []
    else if !WorthShowing(items[0]) then ToolItems(items[1..], tools, numbers)
    else tools != [] && ToolShape(items[0], tools[0], numbers) && ToolItems(items[1..], tools[1..], numbers)
  }

  /** `entry` gives the data of `f`. */
  ghost predicate FileShape(entry: Object, f: File, numbers: Numbers) {
    var tools := Get(entry, "gcodeToolDatas");
    && IntShape(Get(entry, "printingTime"), f.printingTimeS, numbers)
    && FloatShape(Get(entry, "totalFilamentWeight"), f.filamentWeightG, numbers)
    && IntShape(Get(entry, "gcodeToolCnt"), f.toolCount, numbers)
    && FlagShape(Get(entry, "useMatlStation"), f.usesMaterialStation)
    && !NotIterable(tools)
    && if tools.List? then ToolItems(tools.items, f.tools, numbers) else f.tools == []
  }

  lemma IntReadExactly(v: Json, n: Option<int>, numbers: Numbers)
    ensures AsInt(v, numbers) == n <==> IntShape(v, n, numbers)
  {
  }

  lemma FloatReadExactly(v: Json, f: Option<Float>, numbers: Numbers)
    ensures AsFloat(v, numbers) == Ok(f) <==> FloatShape(v, f, numbers)
  {
    hide TooLarge, Overflows;
    SameShapes(v);
  }

  lemma ToolReadExactly(item: Json, t: Tool, numbers: Numbers)
    requires WorthShowing(item)
    ensures ShowsTool(item) && (ToolOf(item, numbers) == Ok(t) <==> ToolShape(item, t, numbers))
  {
    SameShapes(item);
    IntReadExactly(Get(item.entries, "toolId"), t.toolId, numbers);
    IntReadExactly(Get(item.entries, "slotId"), t.slotId, numbers);
    FloatReadExactly(Get(item.entries, "filamentWeight"), t.weightG, numbers);
    hide AsInt, AsFloat, IntShape, FloatShape;
  }

  lemma {:induction false} ToolsReadExactly(items: seq<Json>, tools: seq<Tool>, numbers: Numbers)
    ensures ToolsOf(items, numbers) == Ok(tools) <==> ToolItems(items, tools, numbers)
  {
    hide WorthShowing, ShowsTool, ToolShape, ToolOf;
    if items != [] {
      SameShapes(items[0]);
      if !WorthShowing(items[0]) {
        ToolsReadExactly(items[1..], tools, numbers);
      } else if tools != [] {
        ToolReadExactly(items[0], tools[0], numbers);
        ToolsReadExactly(items[1..], tools[1..], numbers);
        assert tools == [tools[0]] + tools[1..];
      }
    }
  }

  /** A file is read from an entry exactly when the entry gives its data, in whatever forms. */
  lemma FileReadExactly(name: string, entry: Object, f: File, numbers: Numbers)
    ensures FileOf(name, entry, numbers) == Ok(f) <==> f.name == name && FileShape(entry, f, numbers)
  {
    var tools := Get(entry, "gcodeToolDatas");
    IntReadExactly(Get(entry, "printingTime"), f.printingTimeS, numbers);
    IntReadExactly(Get(entry, "gcodeToolCnt"), f.toolCount, numbers);
    FloatReadExactly(Get(entry, "totalFilamentWeight"), f.filamentWeightG, numbers);
    ToolsReadExactly(ItemsOf(tools), f.tools, numbers);
    SameShapes(tools);
    hide AsInt, AsFloat, IntShape, FloatShape, ToolsOf;
  }

  /** `entries` are about `files`, each about the one at its place. */
  ghost predicate Describe(entries: seq<Object>, files: seq<File>, numbers: Numbers) {
    && |entries| == |files| && Distinct(NamesOf(files))
    && forall i | 0 <= i < |files| ::
         && files[i].name != "" && Get(entries[i], "gcodeFileName") == Str(files[i].name)
         && FileShape(entries[i], files[i], numbers)
  }

  function DictsOf(entries: seq<Object>): seq<Json> {
    seq(|entries|, i requires 0 <= i < |entries| => Dict(entries[i]))
  }

  /** A reply as newer firmware gives it: the detail of every file, and the bare names or not. */
  function BodyJson(names: seq<Json>, entries: seq<Object>): Json {
    Dict(map["gcodeList" := List(names), "gcodeListDetail" := List(DictsOf(entries))])
  }

  lemma DescribeFront(entries: seq<Object>, files: seq<File>, numbers: Numbers)
    requires files != [] && Describe(entries, files, numbers)
    ensures |entries| == |files|
    ensures var n := |files| - 1;
            && Describe(entries[..n], files[..n], numbers)
            && NamesOf(files) == NamesOf(files[..n]) + [files[n].name] && files[n].name !in NamesOf(files[..n])
            && DictsOf(entries) == DictsOf(entries[..n]) + [Dict(entries[n])]
            && DetailName(Dict(entries[n])) == files[n].name
  {
    hide FileShape;
    var n := |files| - 1;
    assert forall i | 0 <= i < n :: NamesOf(files[..n])[i] == NamesOf(files)[i] && NamesOf(files)[i] != NamesOf(files)[n];
  }

  lemma {:induction false} DetailNamesOfFiles(entries: seq<Object>, files: seq<File>, numbers: Numbers)
    requires Describe(entries, files, numbers)
    ensures DetailNames(DictsOf(entries)) == NamesOf(files)
    decreases |files|
  {
    hide DetailName, Describe, NamesOf;
    if |files| > 0 && |entries| > 0 {
      var n := |files| - 1;
      DescribeFront(entries, files, numbers);
      DetailNamesOfFiles(entries[..n], files[..n], numbers);
      assert DictsOf(entries)[..|DictsOf(entries)| - 1] == DictsOf(entries[..n]);
      assert Last(DictsOf(entries)) == Dict(entries[n]);
      NameGiven(entries, files, numbers, n);
    } else {
      NothingDescribed(entries, files, numbers);
    }
  }

  lemma NameGiven(entries: seq<Object>, files: seq<File>, numbers: Numbers, i: nat)
    requires Describe(entries, files, numbers) && i < |files|
    ensures files[i].name != "" && i < |entries| && FileOf(files[i].name, entries[i], numbers) == Ok(files[i])
  {
    FileReadExactly(files[i].name, entries[i], files[i], numbers);
  }

  lemma NothingDescribed(entries: seq<Object>, files: seq<File>, numbers: Numbers)
    requires Describe(entries, files, numbers) && (files == [] || entries == [])
    ensures files == [] && entries == [] && NamesOf(files) == []
  {
  }

  lemma {:induction false} DetailOfFile(entries: seq<Object>, files: seq<File>, i: nat, k: nat)
    requires |entries| == |files| && k <= i < |files| && Distinct(NamesOf(files))
    requires forall j | 0 <= j < |files| :: Get(entries[j], "gcodeFileName") == Str(files[j].name)
    ensures DetailOf(DictsOf(entries)[k..], files[i].name) == entries[i]
    decreases i - k
  {
    var detail := DictsOf(entries)[k..];
    assert NamesOf(files)[k] == files[k].name && NamesOf(files)[i] == files[i].name;
    assert detail[0] == Dict(entries[k]) && detail[1..] == DictsOf(entries)[k + 1..];
    if k < i {
      DetailOfFile(entries, files, i, k + 1);
    }
  }

  lemma {:induction false} FilesRead(entries: seq<Object>, files: seq<File>, n: nat, numbers: Numbers)
    requires n <= |files| && Describe(entries, files, numbers)
    ensures FilesOf(NamesOf(files)[..n], DictsOf(entries), numbers) == Ok(files[..n])
    decreases n
  {
    if n > 0 {
      hide FileOf, DetailOf, DictsOf, FileShape;
      assert NamesOf(files)[..n][..n - 1] == NamesOf(files)[..n - 1];
      FilesRead(entries, files, n - 1, numbers);
      DetailOfFile(entries, files, n - 1, 0);
      assert DictsOf(entries)[0..] == DictsOf(entries);
      NameGiven(entries, files, numbers, n - 1);
      assert files[..n] == files[..n - 1] + [files[n - 1]];
    }
  }

  function NamesJson(files: seq<File>): seq<Json> {
    if files == [] then [] else NamesJson(files[..|files| - 1]) + [Str(Last(files).name)]
  }

  lemma {:induction false} ListedNamesOfFiles(files: seq<File>)
    requires forall f | f in files :: f.name != ""
    ensures ListedNames(NamesJson(files)) == NamesOf(files)
  {
    if files != [] {
      var front := files[..|files| - 1];
      ListedNamesOfFiles(front);
      assert NamesJson(files)[..|NamesJson(files)| - 1] == NamesJson(front);
      assert Last(files) in files;
      assert NamesOf(files) == NamesOf(front) + [Last(files).name];
    }
  }

  lemma {:induction false} WithoutAll(names: seq<string>, known: seq<string>)
    requires forall n | n in names :: n in known
    ensures Without(names, known) == []
  {
    if names != [] {
      WithoutAll(names[..|names| - 1], known);
    }
  }

  lemma {:induction false} WithoutNone(names: seq<string>)
    ensures Without(names, []) == names
  {
    if names != [] {
      WithoutNone(names[..|names| - 1]);
    }
  }

  lemma NamesCount(files: seq<File>)
    ensures |NamesOf(files)| == |files|
  {
  }

  /** Files with distinct names, written out with their detail in any of the forms the firmware uses, are read
      back as they are, whether or not the bare names are listed too. */
  lemma {:induction false} FilesRoundTrip(entries: seq<Object>, files: seq<File>, numbers: Numbers)
    requires Describe(entries, files, numbers)
    ensures ParseGcodeFiles(BodyJson(NamesJson(files), entries), numbers) == Ok(files)
    ensures ParseGcodeFiles(BodyJson([], entries), numbers) == Ok(files)
  {
    assert forall f | f in files :: f.name != "";
    hide DictsOf, NamesJson, NamesOf, FilesOf, DetailNames, Describe;
    var names := NamesOf(files);
    assert ListedNames([]) == [];
    ListedNamesOfFiles(files);
    DetailNamesOfFiles(entries, files, numbers);
    WithoutAll(names, names);
    WithoutNone(names);
    FilesRead(entries, files, |files|, numbers);
    assert |names| == |files| by { NamesCount(files); }
    assert names[..|files|] == names && files[..|files|] == files;
    assert names + [] == names && [] + names == names;
  }

  // ── one way to write a file ──────────────────────────────────────────────────────────────

  function IntJson(n: Option<int>): Json {
    if n.Some? then Integer(n.value) else Null
  }

  function FloatJson(f: Option<Float>): Json {
    if f.Some? then Floating(f.value) else Null
  }

  function ToolJson(t: Tool): Json {
    Dict(map["toolId" := IntJson(t.toolId), "slotId" := IntJson(t.slotId),
             "materialName" := Str(t.material), "materialColor" := Str(t.color),
             "filamentWeight" := FloatJson(t.weightG)])
  }

  function ToolsJson(tools: seq<Tool>): seq<Json> {
    if tools == [] then [] else [ToolJson(tools[0])] + ToolsJson(tools[1..])
  }

  function FileObject(f: File): Object {
    map["gcodeFileName" := Str(f.name), "printingTime" := IntJson(f.printingTimeS),
        "totalFilamentWeight" := FloatJson(f.filamentWeightG),
        "gcodeToolCnt" := IntJson(f.toolCount), "useMatlStation" := Bool(f.usesMaterialStation),
        "gcodeToolDatas" := List(ToolsJson(f.tools))]
  }

  lemma {:induction false} ToolsWritten(tools: seq<Tool>, numbers: Numbers)
    requires forall t | t in tools :: t.material != "" || t.color != ""
    ensures ToolItems(ToolsJson(tools), tools, numbers)
  {
    if tools != [] {
      assert tools[0] in tools;
      ToolsWritten(tools[1..], numbers);
      ToolWritten(tools[0], numbers);
      assert ToolsJson(tools)[1..] == ToolsJson(tools[1..]);
      hide ToolJson, ToolShape, WorthShowing;
    }
  }

  lemma ToolWritten(t: Tool, numbers: Numbers)
    requires t.material != "" || t.color != ""
    ensures WorthShowing(ToolJson(t)) && ToolShape(ToolJson(t), t, numbers)
  {
  }

  /** Any files with distinct names, each tool with a material or a color, can be written so as to be read back. */
  lemma FilesCanBeWritten(files: seq<File>, numbers: Numbers)
    requires Distinct(NamesOf(files))
    requires forall i | 0 <= i < |files| :: files[i].name != "" &&
               forall t | t in files[i].tools :: t.material != "" || t.color != ""
    ensures Describe(seq(|files|, i requires 0 <= i < |files| => FileObject(files[i])), files, numbers)
  {
    var entries := seq(|files|, i requires 0 <= i < |files| => FileObject(files[i]));
    forall i | 0 <= i < |files|
      ensures Get(entries[i], "gcodeFileName") == Str(files[i].name) && FileShape(entries[i], files[i], numbers)
    {
      FileWritten(files[i], numbers);
      hide FileShape, FileObject;
      assert entries[i] == FileObject(files[i]);
    }
  }

  lemma FileWritten(f: File, numbers: Numbers)
    requires forall t | t in f.tools :: t.material != "" || t.color != ""
    ensures Get(FileObject(f), "gcodeFileName") == Str(f.name) && FileShape(FileObject(f), f, numbers)
  {
    ToolsWritten(f.tools, numbers);
    hide ToolItems, ToolsJson, TooLarge;
  }

  // ── starting a print ─────────────────────────────────────────────────────────────────────

  datatype PrintRefused = NotReady | UnknownFile

  const READY_TO_START: set<MachineState> := {READY, COMPLETED, CANCELLED}

  function MayStartPrint(state: Option<MachineState>, fileName: string, known: seq<string>): Option<PrintRefused> {
    if state.None? || state.value !in READY_TO_START then Some(NotReady)
    else if fileName == "" || fileName !in known then Some(UnknownFile)
    else None
  }

  /** What the printer answers when asked for its files: nothing, or a reply to parse. */
  datatype Listing = Unreachable | Reply(body: Json)

  datatype Mapping = Mapping(toolId: int, slotId: int)

  /** One `printGcode` call on the wire. */
  datatype PrintJob = PrintJob(fileName: string, mappings: seq<Mapping>)

  datatype StartOutcome = Started | Refused(why: PrintRefused) | Raised

  /** An outcome, and the call made on the way to it, if any. */
  datatype Start = Start(outcome: StartOutcome, sent: Option<PrintJob>)

  /** The position of the first file of that name, or the end of the list. */
  function FirstNamed(files: seq<File>, name: string): (i: nat)
    ensures i <= |files|
    ensures i < |files| ==> files[i].name == name
    ensures forall j | 0 <= j < i :: files[j].name != name
  {
    if files == [] || files[0].name == name then 0 else 1 + FirstNamed(files[1..], name)
  }

  function Mappings(tools: seq<Tool>): seq<Mapping> {
    if tools == [] then []
    else
      var tool := Last(tools);
      Mappings(tools[..|tools| - 1]) +
      if tool.toolId.Some? && tool.slotId.Some? then [Mapping(tool.toolId.value, tool.slotId.value)] else []
  }

  function StartPrint(snapshot: Option<Snapshot>, fileName: string, listing: Listing, accepts: bool,
                      numbers: Numbers): Start {
    if listing.Unreachable? then Start(Refused(UnknownFile), None)
    else
      match ParseGcodeFiles(listing.body, numbers)
      case Raise(_) => Start(Raised, None)
      case Ok(files) =>
        var state := if snapshot.Some? then Some(snapshot.value.state) else None;
        var refusal := MayStartPrint(state, fileName, NamesOf(files));
        if refusal.Some? then Start(Refused(refusal.value), None)
        else
          var chosen := files[FirstNamed(files, fileName)];
          var job := PrintJob(fileName, if chosen.usesMaterialStation then Mappings(chosen.tools) else []);
          Start(if accepts then Started else Refused(NotReady), Some(job))
  }

  predicate HasBothIds(t: Tool) {
    t.toolId.Some? && t.slotId.Some?
  }

  /** `idx` lists, in order, all the positions of tools that have both ids. */
  ghost predicate Positions(idx: seq<nat>, tools: seq<Tool>) {
    && (forall j, k | 0 <= j < k < |idx| :: idx[j] < idx[k])
    && (forall k | 0 <= k < |idx| :: idx[k] < |tools|)
    && (forall i | 0 <= i < |tools| :: HasBothIds(tools[i]) <==> i in idx)
  }

  /** The mappings are the pairs of ids of the tools that have both: one for each, in their order. */
  lemma {:induction false} MappingsAreTools(tools: seq<Tool>)
    ensures exists idx: seq<nat> ::
              && Positions(idx, tools) && |Mappings(tools)| == |idx|
              && forall k | 0 <= k < |idx| ::
                   tools[idx[k]].toolId == Some(Mappings(tools)[k].toolId) &&
                   tools[idx[k]].slotId == Some(Mappings(tools)[k].slotId)
  {
    var idx := MappingPositions(tools);
  }

  lemma {:induction false} MappingPositions(tools: seq<Tool>) returns (idx: seq<nat>)
    ensures Positions(idx, tools) && |Mappings(tools)| == |idx|
    ensures forall k | 0 <= k < |idx| ::
              tools[idx[k]].toolId == Some(Mappings(tools)[k].toolId) &&
              tools[idx[k]].slotId == Some(Mappings(tools)[k].slotId)
  {
    if tools == [] {
      return [];
    }
    var n := |tools| - 1;
    var front := MappingPositions(tools[..n]);
    idx := front + if HasBothIds(tools[n]) then [n] else [];
    PositionsGrow(front, tools);
    forall k | 0 <= k < |idx|
      ensures tools[idx[k]].toolId == Some(Mappings(tools)[k].toolId)
      ensures tools[idx[k]].slotId == Some(Mappings(tools)[k].slotId)
    {
      if k < |front| {
        assert tools[front[k]] == tools[..n][front[k]] && Mappings(tools)[k] == Mappings(tools[..n])[k];
      }
    }
  }

  lemma PositionsGrow(front: seq<nat>, tools: seq<Tool>)
    requires tools != [] && Positions(front, tools[..|tools| - 1])
    ensures Positions(front + if HasBothIds(Last(tools)) then [|tools| - 1] else [], tools)
  {
    var n := |tools| - 1;
    var idx := front + if HasBothIds(tools[n]) then [n] else [];
    assert forall i | 0 <= i < n :: tools[..n][i] == tools[i];
    assert forall i :: i in idx <==> i in front || (i == n && HasBothIds(tools[n]));
    assert n !in front;
  }

  /** A print goes out exactly when the list could be read, the machine is idle and the list just read
      names the file; it names that file, and maps the tools of its entry that have both ids, or none
      when the entry does not use the material station. */
  lemma {:induction false} StartedPrints(snapshot: Option<Snapshot>, fileName: string, listing: Listing, accepts: bool,
                      numbers: Numbers)
    ensures var r := StartPrint(snapshot, fileName, listing, accepts, numbers);
            && (listing.Reply? ==> (ParseGcodeFiles(listing.body, numbers).Ok? <==> !ListRaises(listing.body)))
            && (r.sent.Some? <==>
                  && listing.Reply? && ParseGcodeFiles(listing.body, numbers).Ok?
                  && snapshot.Some? && snapshot.value.state in {READY, COMPLETED, CANCELLED}
                  && fileName != ""
                  && exists f :: f in ParseGcodeFiles(listing.body, numbers).value && f.name == fileName)
            && (r.sent.Some? ==>
                  var files := ParseGcodeFiles(listing.body, numbers).value;
                  exists i | 0 <= i < |files| ::
                    && files[i].name == fileName && (forall j | 0 <= j < i :: files[j].name != fileName)
                    && r.sent == Some(PrintJob(
                         fileName, if files[i].usesMaterialStation then Mappings(files[i].tools) else [])))
            && (r.outcome == Started <==> r.sent.Some? && accepts)
            && (r.outcome == Refused(UnknownFile) <==>
                  || listing.Unreachable?
                  || (&& !ListRaises(listing.body)
                      && snapshot.Some? && snapshot.value.state in {READY, COMPLETED, CANCELLED} && r.sent.None?))
            && (r.outcome == Raised <==> listing.Reply? && ListRaises(listing.body))
  {
    if listing.Reply? {
      RaisesExactly(listing.body, numbers);
    }
    hide ParseGcodeFiles, ListRaises;
    if listing.Reply? && ParseGcodeFiles(listing.body, numbers).Ok? {
      var files := ParseGcodeFiles(listing.body, numbers).value;
      assert forall i | 0 <= i < |files| :: NamesOf(files)[i] == files[i].name;
    }
  }
}
