/** The JSON documents that travel on an event stream, and the test that ends a run. */
module Json {
  datatype Option<+T> = None | Some(value: T)

  /** A string member of a JSON object: absent (or null), a string, or a value of another type. */
  datatype Member = Absent | Text(text: string) | Mistyped

  /** A parsed JSON text, reduced to what the consumers inspect. `body` stands for everything else. */
  datatype Value =
    | Null
    | Scalar(literal: string)
    | Array(items: seq<Value>)
    | Object(typ: Member, status: Member, sequence: Option<int>, body: string)

  function Sequence(v: Value): Option<int> {
    if v.Object? then v.sequence else None
  }

  const TERMINAL_EVENT_TYPES: set<string> := {"run.completed", "run.failed", "run.cancelled"}

  const ACTIVE_RUN_STATUSES: set<string> :=
    {"pending", "running", "paused", "waiting-approval", "waiting-input", "waiting-external", "cancelling"}

  predicate IsTerminalRunStatus(status: string) {
    status !in ACTIVE_RUN_STATUSES
  }

  predicate HasTerminalType(v: Value) {
    v.Object? && v.typ.Text? && v.typ.text in TERMINAL_EVENT_TYPES
  }

  /** The TypeScript test looks at each member on its own. */
  predicate IsRunTerminalFrame(event: string, v: Value) {
    || HasTerminalType(v)
    || (v.Object? && event == "state.snapshot" && v.status.Text? && IsTerminalRunStatus(v.status.text))
  }

  /** The Go test first decodes both members into one struct, which fails as a whole on a mistyped member. */
  predicate IsTerminalFrame(event: string, v: Value) {
    && v.Object? && !v.typ.Mistyped? && !v.status.Mistyped?
    && (|| HasTerminalType(v)
        || (event == "state.snapshot" && v.status.Text? && v.status.text != "" && IsTerminalRunStatus(v.status.text)))
  }

  /** Go never ends a run that TypeScript keeps open; TypeScript alone ends it on exactly three shapes. */
  lemma TerminalTestsDiffer(event: string, v: Value)
    ensures IsTerminalFrame(event, v) ==> IsRunTerminalFrame(event, v)
    ensures IsRunTerminalFrame(event, v) != IsTerminalFrame(event, v) <==>
            && IsRunTerminalFrame(event, v)
            && (v.typ.Mistyped? || v.status.Mistyped? || (v.status == Text("") && !HasTerminalType(v)))
  {
    if IsRunTerminalFrame(event, v) {
      assert v.Object?;
    }
  }

  /**
   * A snapshot ends the run exactly when its status is none of those of a run under way; a status nobody
   * knows counts as an end. Both programs say so of a document without a terminal or mistyped type.
   */
  lemma SnapshotEndsRun(v: Value, status: string)
    requires v.Object? && v.status == Text(status) && status != "" && !v.typ.Mistyped?
    requires v.typ !in {Text("run.completed"), Text("run.failed"), Text("run.cancelled")}
    ensures IsRunTerminalFrame("state.snapshot", v) <==> status !in {
              "pending", "running", "paused", "waiting-approval", "waiting-input", "waiting-external", "cancelling"}
    ensures IsTerminalFrame("state.snapshot", v) <==> status !in {
              "pending", "running", "paused", "waiting-approval", "waiting-input", "waiting-external", "cancelling"}
  {
  }

  /** Any other document ends it exactly by one of the three event types. */
  lemma EventEndsRun(event: string, v: Value)
    requires event != "state.snapshot" && (v.Object? ==> !v.typ.Mistyped? && !v.status.Mistyped?)
    ensures IsRunTerminalFrame(event, v) <==>
            v.Object? && v.typ in {Text("run.completed"), Text("run.failed"), Text("run.cancelled")}
    ensures IsTerminalFrame(event, v) <==>
            v.Object? && v.typ in {Text("run.completed"), Text("run.failed"), Text("run.cancelled")}
  {
  }
}
