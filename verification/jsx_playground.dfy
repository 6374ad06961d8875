/** The JSX playgrounds of the React and state-management pages. All three
    share one pipeline: `Babel.transform` the editor text, build a function
    with `new Function(params..., code)`, call it, and show either the result
    or the caught error's message. The transform and the call are foreign,
    given here as oracles. */
module JsxPlayground {
  import opened Wrappers
  import opened Js

  /** What `Babel.transform(code, {presets: ['react']})` does: produce code,
      or throw (a syntax error, say) with a message. */
  datatype Transformed = Code(code: string) | TransformError(message: JsValue)

  /** The parameter names the React page's function receives. */
  const ReactParams: seq<string> := ["React", "ReactDOM"]

  /** The state-management page adds Redux. */
  const StateParams: seq<string> := ["React", "ReactDOM", "Redux"]

  /** Transform, then build and call the function once. Both steps sit in
      one `try`, so a transform error is a throw like any other. */
  function Pipeline(source: string, params: seq<string>, transform: string -> Transformed,
                    execute: (seq<string>, string) -> Completion): (r: Completion)
    ensures transform(source).TransformError? ==> r == Throw(transform(source).message)
    ensures transform(source).Code? ==> r == execute(params, transform(source).code)
  {
    match transform(source)
    case TransformError(m) => Throw(m)
    case Code(code) => execute(params, code)
  }

  /** A transform error means the code is never executed: the outcome is the
      same whatever the executor would have done. */
  lemma TransformErrorNeverExecutes(source: string, params: seq<string>, transform: string -> Transformed,
                                    execute1: (seq<string>, string) -> Completion,
                                    execute2: (seq<string>, string) -> Completion)
    requires transform(source).TransformError?
    ensures Pipeline(source, params, transform, execute1) == Pipeline(source, params, transform, execute2)
    ensures Pipeline(source, params, transform, execute1).Throw?
  {
  }

  /** `ReactPlayground`'s state: the editor text and the two state hooks,
      both `null` at first. `error` holds the caught error's `.message`. */
  datatype PlaygroundState = PlaygroundState(code: string, output: JsValue, error: JsValue)

  function InitialPlayground(code: string): PlaygroundState {
    PlaygroundState(code, Null, Null)
  }

  /** Never an error and an output at the same time. */
  predicate Consistent(s: PlaygroundState) {
    s.error == Null || s.output == Null
  }

  /** `runCode`: clears the error, then on success stores the result as the
      output, and on any throw stores the message as the error and clears the
      output. The mount effect calls it once on the initial state. */
  function RunCode(s: PlaygroundState, transform: string -> Transformed,
                   execute: (seq<string>, string) -> Completion): (r: PlaygroundState)
    ensures r.code == s.code
    ensures Consistent(r)
    ensures Pipeline(s.code, ReactParams, transform, execute).Return? ==>
      r.error == Null && r.output == Pipeline(s.code, ReactParams, transform, execute).value
    ensures Pipeline(s.code, ReactParams, transform, execute).Throw? ==>
      r.output == Null && r.error == Pipeline(s.code, ReactParams, transform, execute).message
  {
    var cleared := s.(error := Null);
    match Pipeline(s.code, ReactParams, transform, execute)
    case Return(v) => cleared.(output := v)
    case Throw(m) => cleared.(error := m, output := Null)
  }

  /** Editing the textarea changes the code and nothing else: the panels
      keep showing the last run until Run is pressed. */
  function EditCode(s: PlaygroundState, text: string): (r: PlaygroundState)
    ensures r.code == text && r.output == s.output && r.error == s.error
  {
    s.(code := text)
  }

  /** What a run shows does not depend on what earlier runs left behind. */
  lemma RunCodeForgetsHistory(s1: PlaygroundState, s2: PlaygroundState, transform: string -> Transformed,
                              execute: (seq<string>, string) -> Completion)
    requires s1.code == s2.code
    ensures RunCode(s1, transform, execute) == RunCode(s2, transform, execute)
  {
  }

  /** The error panel shows when `error` is truthy. */
  predicate ErrorPanelShown(s: PlaygroundState) {
    Truthy(s.error)
  }

  /** The output panel shows when `output` is truthy and `error` is not. */
  predicate OutputPanelShown(s: PlaygroundState) {
    Truthy(s.output) && !Truthy(s.error)
  }

  /** After any run, exactly the panel for the outcome shows, and never both:
      the error panel iff the run threw with a truthy message, the output
      panel iff it returned a truthy value. A throw whose message is empty
      (`new Error()`) shows neither panel, and the old output is gone. */
  lemma DisplayAfterRun(s: PlaygroundState, transform: string -> Transformed,
                        execute: (seq<string>, string) -> Completion)
    ensures var r := RunCode(s, transform, execute);
      var c := Pipeline(s.code, ReactParams, transform, execute);
      && !(ErrorPanelShown(r) && OutputPanelShown(r))
      && (ErrorPanelShown(r) <==> c.Throw? && Truthy(c.message))
      && (OutputPanelShown(r) <==> c.Return? && Truthy(c.value))
  {
  }

  /** In every consistent state, including the initial one, at most one
      panel shows. */
  lemma ConsistentShowsAtMostOne(s: PlaygroundState)
    requires Consistent(s)
    ensures !(ErrorPanelShown(s) && OutputPanelShown(s))
    ensures ErrorPanelShown(s) ==> s.output == Null
  {
  }

  /** What the page-level Run handlers put into the output element: the
      rendered result, or an error panel with the caught message. */
  datatype View = Rendered(value: JsValue) | ErrorView(message: JsValue)

  /** The `runReactCode` / `runStateCode` click handler: nothing happens
      unless both the editor and the output element exist. Otherwise the
      pipeline runs with `params`, and its result is handed to
      `ReactDOM.render` (the oracle `render`, which may throw too); any throw
      renders the error panel instead. The editor text is used untrimmed. */
  function RunHandler(editor: Option<string>, outputFound: bool, params: seq<string>,
                      transform: string -> Transformed, execute: (seq<string>, string) -> Completion,
                      render: JsValue -> Completion): (r: Option<View>)
    ensures editor.None? || !outputFound <==> r.None?
  {
    if editor.None? || !outputFound then None
    else match Pipeline(editor.value, params, transform, execute)
      case Throw(m) => Some(ErrorView(m))
      case Return(v) =>
        match render(v)
        case Throw(m) => Some(ErrorView(m))
        case Return(_) => Some(Rendered(v))
  }

  /** The React page's handler. */
  function RunReactCode(editor: Option<string>, outputFound: bool, transform: string -> Transformed,
                        execute: (seq<string>, string) -> Completion, render: JsValue -> Completion): (r: Option<View>)
    ensures editor.None? || !outputFound <==> r.None?
  {
    RunHandler(editor, outputFound, ReactParams, transform, execute, render)
  }

  /** The state-management page's handler, which also passes `Redux`. */
  function RunStateCode(editor: Option<string>, outputFound: bool, transform: string -> Transformed,
                        execute: (seq<string>, string) -> Completion, render: JsValue -> Completion): (r: Option<View>)
    ensures editor.None? || !outputFound <==> r.None?
  {
    RunHandler(editor, outputFound, StateParams, transform, execute, render)
  }

  /** With both elements present, a click renders exactly one view: the
      error panel with the thrown message when transforming, executing or
      rendering throws, and the returned value otherwise. */
  lemma HandlerRendersOne(source: string, params: seq<string>, transform: string -> Transformed,
                          execute: (seq<string>, string) -> Completion, render: JsValue -> Completion)
    ensures var c := Pipeline(source, params, transform, execute);
      var r := RunHandler(Some(source), true, params, transform, execute, render);
      && r.Some?
      && (r.value.Rendered? <==> c.Return? && render(c.value).Return?)
      && (r.value.Rendered? ==> r.value.value == c.value)
      && (c.Throw? ==> r.value == ErrorView(c.message))
      && (c.Return? && render(c.value).Throw? ==> r.value == ErrorView(render(c.value).message))
  {
  }

  /** The React page's handler and its component playground agree: given
      the same code and a renderer that accepts every result, the handler
      shows the error panel with message `m` exactly when `runCode` records
      `m` as its error, and otherwise renders `runCode`'s output. */
  lemma HandlerAgreesWithRunCode(s: PlaygroundState, transform: string -> Transformed,
                                 execute: (seq<string>, string) -> Completion, render: JsValue -> Completion)
    requires forall v :: render(v).Return?
    ensures var r := RunCode(s, transform, execute);
      var h := RunReactCode(Some(s.code), true, transform, execute, render);
      && h.Some?
      && (h.value.ErrorView? <==> Pipeline(s.code, ReactParams, transform, execute).Throw?)
      && (h.value.ErrorView? ==> h.value.message == r.error)
      && (h.value.Rendered? ==> h.value.value == r.output)
  {
    var c := Pipeline(s.code, ReactParams, transform, execute);
    if c.Return? {
      assert render(c.value).Return?;
    }
  }
}
