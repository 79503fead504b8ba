/**
 * The run's inputs, read from the configuration page (sante.py `get_inputs`
 * and the `MuxxuGroup` name rule): muxxu groups, forum threads and excepted
 * messages, one directive per data line. The page text is a parameter; the
 * regular-expression extraction of a group's or an exception's fields is a
 * parameter too.
 */
module Config {
  import opened Wrappers
  import opened Text
  import opened Model

  const EditorMarker: string := "<div class=\"editorContent\">"
  const GroupPrefix: string := "groupe muxxu : "
  const ThreadPrefix: string := "thread : "
  const ExceptPrefix: string := "except : "
  /** Data lines are separated by a literal backslash followed by `n`. */
  const DataSeparator: string := "\\n"

  datatype MuxxuGroup = MuxxuGroup(group: string, mapNumber: nat, city: nat)

  datatype ConfigError =
    | UnexpectedGroupName(group: string)
    | UnreadableGroup(line: string)
    | BadThreadId(text: string)
    | UnreadableExcept(line: string)
    | InputNotFound

  /** A character allowed in a group name: ASCII letter or digit, `-` or `_`. */
  predicate GroupNameChar(c: char) {
    ('a' <= c <= 'z') || ('A' <= c <= 'Z') || ('0' <= c <= '9') || c == '-' || c == '_'
  }

  /** The position of the first character not allowed in a group name. */
  function FirstBadChar(name: string): (r: Option<nat>)
    ensures r.Some? ==> r.value < |name| && !GroupNameChar(name[r.value])
    ensures forall i :: 0 <= i < |name| && (r.None? || i < r.value) ==> GroupNameChar(name[i])
  {
    if name == [] then None
    else if !GroupNameChar(name[0]) then Some(0)
    else match FirstBadChar(name[1..])
      case None => None
      case Some(k) => Some(k + 1)
  }

  /** `MuxxuGroup(...)`: a group is built exactly when every character of its name is allowed. */
  function NewMuxxuGroup(group: string, mapNumber: nat, city: nat): (r: Result<MuxxuGroup, ConfigError>)
    ensures r.Ok? <==> forall i :: 0 <= i < |group| ==> GroupNameChar(group[i])
    ensures r.Ok? ==> r.value == MuxxuGroup(group, mapNumber, city)
    ensures r.Err? ==> r.error == UnexpectedGroupName(group)
  {
    if FirstBadChar(group).None? then Ok(MuxxuGroup(group, mapNumber, city))
    else Err(UnexpectedGroupName(group))
  }

  /** What one data line asks for. */
  datatype Directive =
    | GroupDirective(group: MuxxuGroup)
    | ThreadDirective(thread: nat)
    | ExceptDirective(except: MessageExcept)
    | Comment

  /** The fields a group line's pattern extracts: name, map and city. */
  datatype GroupFields = GroupFields(name: string, mapNumber: nat, city: nat)

  /**
   * One data line: a group line, else a thread line (the id is the rest of
   * the line), else an exception line, else nothing. An unreadable group or
   * exception line, an id that is not a number and a bad group name abort.
   */
  function Dispatch(line: string, parseGroup: string -> Option<GroupFields>, parseExcept: string -> Option<MessageExcept>)
    : (r: Result<Directive, ConfigError>)
    ensures StartsWith(line, GroupPrefix) && parseGroup(line).None? ==> r == Err(UnreadableGroup(line))
    ensures StartsWith(line, GroupPrefix) && parseGroup(line).Some? ==>
      var f := parseGroup(line).value;
      && (NewMuxxuGroup(f.name, f.mapNumber, f.city).Err? ==> r == Err(NewMuxxuGroup(f.name, f.mapNumber, f.city).error))
      && (NewMuxxuGroup(f.name, f.mapNumber, f.city).Ok? ==> r == Ok(GroupDirective(NewMuxxuGroup(f.name, f.mapNumber, f.city).value)))
    ensures !StartsWith(line, GroupPrefix) && StartsWith(line, ThreadPrefix) ==>
      (r.Ok? <==> ParseNat(line[|ThreadPrefix|..]).Some?) &&
      (r.Ok? ==> r.value == ThreadDirective(ParseNat(line[|ThreadPrefix|..]).value))
    ensures !StartsWith(line, GroupPrefix) && !StartsWith(line, ThreadPrefix) && StartsWith(line, ExceptPrefix) ==>
      (r.Ok? <==> parseExcept(line).Some?) && (r.Ok? ==> r.value == ExceptDirective(parseExcept(line).value))
    ensures r == Ok(Comment) <==>
      !StartsWith(line, GroupPrefix) && !StartsWith(line, ThreadPrefix) && !StartsWith(line, ExceptPrefix)
  {
    if StartsWith(line, GroupPrefix) then
      match parseGroup(line)
      case None => Err(UnreadableGroup(line))
      case Some(f) =>
        match NewMuxxuGroup(f.name, f.mapNumber, f.city)
        case Err(e) => Err(e)
        case Ok(g) => Ok(GroupDirective(g))
    else if StartsWith(line, ThreadPrefix) then
      match ParseNat(line[|ThreadPrefix|..])
      case None => Err(BadThreadId(line[|ThreadPrefix|..]))
      case Some(n) => Ok(ThreadDirective(n))
    else if StartsWith(line, ExceptPrefix) then
      match parseExcept(line)
      case None => Err(UnreadableExcept(line))
      case Some(e) => Ok(ExceptDirective(e))
    else Ok(Comment)
  }

  /** A thread line written from an id is read back as that id. */
  lemma ThreadLineRoundTrip(n: nat, parseGroup: string -> Option<GroupFields>, parseExcept: string -> Option<MessageExcept>)
    ensures Dispatch(ThreadPrefix + NatToString(n), parseGroup, parseExcept) == Ok(ThreadDirective(n))
  {
    var line := ThreadPrefix + NatToString(n);
    assert line[|ThreadPrefix|..] == NatToString(n);
    assert line[..|ThreadPrefix|] == ThreadPrefix;
    assert !StartsWith(line, GroupPrefix) by {
      assert line[0] == 't';
    }
    ParseNatToString(n);
  }

  datatype Inputs = Inputs(groups: seq<MuxxuGroup>, threads: seq<nat>, excepts: seq<MessageExcept>)

  /** The inputs after one more directive. */
  function Record(acc: Inputs, d: Directive): Inputs {
    match d
    case GroupDirective(g) => acc.(groups := acc.groups + [g])
    case ThreadDirective(t) => acc.(threads := acc.threads + [t])
    case ExceptDirective(e) => acc.(excepts := acc.excepts + [e])
    case Comment => acc
  }

  /** The inputs `lines` add to `acc`, in order; the first failing line aborts. */
  function Collect(acc: Inputs, lines: seq<string>, parseGroup: string -> Option<GroupFields>, parseExcept: string -> Option<MessageExcept>)
    : Result<Inputs, ConfigError>
    decreases |lines|
  {
    if lines == [] then Ok(acc)
    else match Dispatch(lines[0], parseGroup, parseExcept)
      case Err(e) => Err(e)
      case Ok(d) => Collect(Record(acc, d), lines[1..], parseGroup, parseExcept)
  }

  /** A line that starts with one of the three directive prefixes. */
  predicate IsDirective(line: string) {
    StartsWith(line, GroupPrefix) || StartsWith(line, ThreadPrefix) || StartsWith(line, ExceptPrefix)
  }

  function CountDirectives(lines: seq<string>): nat {
    if lines == [] then 0 else (if IsDirective(lines[0]) then 1 else 0) + CountDirectives(lines[1..])
  }

  function Size(inputs: Inputs): nat {
    |inputs.groups| + |inputs.threads| + |inputs.excepts|
  }

  /**
   * Collecting succeeds exactly when every line dispatches, and then adds one
   * entry per directive line, keeping what was there as a prefix.
   */
  lemma {:induction false} CollectSpec(acc: Inputs, lines: seq<string>, parseGroup: string -> Option<GroupFields>, parseExcept: string -> Option<MessageExcept>)
    ensures Collect(acc, lines, parseGroup, parseExcept).Ok? <==>
      forall k :: 0 <= k < |lines| ==> Dispatch(lines[k], parseGroup, parseExcept).Ok?
    ensures var r := Collect(acc, lines, parseGroup, parseExcept);
      r.Ok? ==>
        && Size(r.value) == Size(acc) + CountDirectives(lines)
        && acc.groups <= r.value.groups && acc.threads <= r.value.threads && acc.excepts <= r.value.excepts
    decreases |lines|
  {
    if lines != [] {
      var d := Dispatch(lines[0], parseGroup, parseExcept);
      if d.Ok? {
        CollectSpec(Record(acc, d.value), lines[1..], parseGroup, parseExcept);
        assert forall k :: 1 <= k < |lines| ==> lines[k] == lines[1..][k - 1];
      }
    }
  }

  /**
   * One more data line: its directive is appended to the list of its kind
   * (a comment adds nothing), and an error in it, or before it, ends the
   * collection with that error.
   */
  lemma {:induction false} CollectLast(acc: Inputs, lines: seq<string>, line: string,
                                       parseGroup: string -> Option<GroupFields>, parseExcept: string -> Option<MessageExcept>)
    ensures Collect(acc, lines + [line], parseGroup, parseExcept) ==
      match Collect(acc, lines, parseGroup, parseExcept)
      case Err(e) => Err(e)
      case Ok(a) =>
        match Dispatch(line, parseGroup, parseExcept)
        case Err(e) => Err(e)
        case Ok(GroupDirective(g)) => Ok(a.(groups := a.groups + [g]))
        case Ok(ThreadDirective(n)) => Ok(a.(threads := a.threads + [n]))
        case Ok(ExceptDirective(x)) => Ok(a.(excepts := a.excepts + [x]))
        case Ok(Comment) => Ok(a)
    decreases |lines|
  {
    if lines == [] {
      assert [] + [line] == [line];
      assert [line][1..] == [];
    } else {
      assert (lines + [line])[0] == lines[0];
      assert (lines + [line])[1..] == lines[1..] + [line];
      match Dispatch(lines[0], parseGroup, parseExcept)
      case Err(e) =>
      case Ok(d) =>
        CollectLast(Record(acc, d), lines[1..], line, parseGroup, parseExcept);
    }
  }

  const NoInputs := Inputs([], [], [])

  /** The data lines of the configuration page: those inside `<pre>` on the first editor line. */
  function DataLines(page: string): Option<seq<string>> {
    var lines := Split(page, "\n");
    match FirstWith(lines, EditorMarker)
    case None => None
    case Some(i) => Some(Split(Between("<pre>", lines[i], "</pre>"), DataSeparator))
  }

  /** The first line in which `marker` occurs. */
  function FirstWith(lines: seq<string>, marker: string): (r: Option<nat>)
    ensures r.Some? ==> r.value < |lines| && Find(lines[r.value], marker).Some?
    ensures forall k :: 0 <= k < |lines| && (r.None? || k < r.value) ==> Find(lines[k], marker).None?
  {
    if lines == [] then None
    else if Find(lines[0], marker).Some? then Some(0)
    else match FirstWith(lines[1..], marker)
      case None => None
      case Some(k) => Some(k + 1)
  }

  /** `get_inputs` once the page is fetched: no editor line is an error. */
  function ReadInputs(page: string, parseGroup: string -> Option<GroupFields>, parseExcept: string -> Option<MessageExcept>)
    : Result<Inputs, ConfigError>
  {
    match DataLines(page)
    case None => Err(InputNotFound)
    case Some(data) => Collect(NoInputs, data, parseGroup, parseExcept)
  }

  /**
   * The loop of `get_inputs` over the data lines, appending to the three
   * lists as it goes; it stops at the first line that fails.
   */
  method GetInputs(page: string, parseGroup: string -> Option<GroupFields>, parseExcept: string -> Option<MessageExcept>)
    returns (r: Result<Inputs, ConfigError>)
    ensures r == ReadInputs(page, parseGroup, parseExcept)
  {
    var data := DataLines(page);
    if data.None? {
      return Err(InputNotFound);
    }
    var lines := data.value;
    var groups: seq<MuxxuGroup> := [];
    var threads: seq<nat> := [];
    var excepts: seq<MessageExcept> := [];
    var i := 0;
    while i < |lines|
      invariant 0 <= i <= |lines|
      invariant Collect(Inputs(groups, threads, excepts), lines[i..], parseGroup, parseExcept) ==
        Collect(NoInputs, lines, parseGroup, parseExcept)
    {
      assert lines[i..][1..] == lines[i + 1..];
      ghost var before := Inputs(groups, threads, excepts);
      var d := Dispatch(lines[i], parseGroup, parseExcept);
      if d.Err? {
        return Err(d.error);
      }
      assert Collect(before, lines[i..], parseGroup, parseExcept) ==
        Collect(Record(before, d.value), lines[i + 1..], parseGroup, parseExcept);
      match d.value {
        case GroupDirective(g) => groups := groups + [g];
        case ThreadDirective(t) => threads := threads + [t];
        case ExceptDirective(e) => excepts := excepts + [e];
        case Comment =>
      }
      assert Inputs(groups, threads, excepts) == Record(before, d.value);
      i := i + 1;
    }
    assert lines[i..] == [];
    return Ok(Inputs(groups, threads, excepts));
  }
}
