/** The preview pane that mounts compiled code (app/components/SandboxPreview.tsx):
    the effect that unmounts the previous React root, runs the code, picks the
    exported component and renders it into a fresh root, the catch path, the
    cleanup, and the precedence of the four panels the render body returns.
    Running the code and the React root calls are foreign: the outcome of
    running the code is a parameter, and each root call is recorded in a log. */
module Preview {
  import opened Optional

  /** A JavaScript value, as far as truthiness and identity matter here. */
  datatype JsValue =
    | Undefined
    | Null
    | Boolean(b: bool)
    | Number(isZeroOrNaN: bool)
    | Str(s: string)
    | Object(ref: nat)

  /** JavaScript truthiness: `undefined`, `null`, `false`, `0`, `NaN` and
      `''` are falsy, everything else is truthy. */
  predicate Truthy(v: JsValue)
    ensures !Truthy(v) <==> v in {Undefined, Null, Boolean(false), Number(true), Str([])}
  {
    match v
    case Undefined => false
    case Null => false
    case Boolean(b) => b
    case Number(z) => !z
    case Str(s) => s != []
    case Object(_) => true
  }

  /** A nullable string prop, truthy only when present and non-empty. */
  predicate Present(s: Option<string>) {
    s.Some? && s.value != []
  }

  /** What was thrown while running the code: an object, read here only for
      its `message` property, or a primitive value. */
  datatype Thrown = ThrownObject(message: JsValue) | ThrownPrimitive(value: JsValue)

  /** `err.message` in the catch block: None when reading it throws itself,
      which happens when `null` or `undefined` was thrown. */
  function MessageOf(err: Thrown): (m: Option<JsValue>)
    ensures m.None? <==> err.ThrownPrimitive? && (err.value == Null || err.value == Undefined)
    ensures err.ThrownObject? ==> m == Some(err.message)
    ensures err.ThrownPrimitive? && m.Some? ==> m.value == Undefined
  {
    match err
    case ThrownObject(msg) => Some(msg)
    case ThrownPrimitive(v) => if v == Null || v == Undefined then None else Some(Undefined)
  }

  /** The outcome of evaluating the wrapped code: it completed, leaving the
      exports object (`exportsRef`) with `default` property `defaultExport`,
      or it threw. */
  datatype Execution = Completed(exportsRef: nat, defaultExport: JsValue) | Threw(err: Thrown)

  /** `moduleExports.default || moduleExports`. The exports object is an
      object literal, so the choice is always truthy: the "no component
      exported" error can never be raised. */
  function ChooseComponent(exportsRef: nat, defaultExport: JsValue): (c: JsValue)
    ensures Truthy(c)
    ensures c == defaultExport || c == Object(exportsRef)
    ensures Truthy(defaultExport) ==> c == defaultExport
  {
    if Truthy(defaultExport) then defaultExport else Object(exportsRef)
  }

  /** Opaque identity of a React root. */
  type RootHandle = nat

  /** The foreign calls the effect makes on React roots. */
  datatype RootEvent = Created(h: RootHandle) | Rendered(h: RootHandle, component: JsValue) | Unmounted(h: RootHandle)

  /** The roots that have been created and not yet unmounted. */
  function LiveRoots(log: seq<RootEvent>): (live: set<RootHandle>)
    ensures forall h :: h in live ==> Created(h) in log
  {
    if log == [] then {}
    else
      var before := LiveRoots(log[..|log| - 1]);
      match log[|log| - 1]
      case Created(h) => before + {h}
      case Rendered(_, _) => before
      case Unmounted(h) => before - {h}
  }

  lemma LiveRootsAppend(log: seq<RootEvent>, e: RootEvent)
    ensures e.Created? ==> LiveRoots(log + [e]) == LiveRoots(log) + {e.h}
    ensures e.Rendered? ==> LiveRoots(log + [e]) == LiveRoots(log)
    ensures e.Unmounted? ==> LiveRoots(log + [e]) == LiveRoots(log) - {e.h}
  {
    assert (log + [e])[..|log + [e]| - 1] == log;
  }

  /** Whether the effect proceeds past its guard: there is code to run and
      the mount container is in the DOM. */
  predicate EffectRuns(compiledCode: Option<string>, containerPresent: bool) {
    Present(compiledCode) && containerPresent
  }

  /** The four panels the component can render. */
  datatype Panel =
    | CompilationErrorPanel(error: string)
    | RuntimeErrorPanel(renderError: JsValue)
    | Placeholder
    | MountContainer

  /** The render body: compilation error, then runtime error, then the
      placeholder when there is no code, otherwise the mount container. */
  function SelectPanel(compiledCode: Option<string>, error: Option<string>, renderError: JsValue): (p: Panel)
    ensures p.CompilationErrorPanel? <==> Present(error)
    ensures p.CompilationErrorPanel? ==> p.error == error.value
    ensures p.RuntimeErrorPanel? <==> !Present(error) && Truthy(renderError)
    ensures p.RuntimeErrorPanel? ==> p.renderError == renderError
    ensures p == Placeholder <==> !Present(error) && !Truthy(renderError) && !Present(compiledCode)
    ensures p == MountContainer <==> !Present(error) && !Truthy(renderError) && Present(compiledCode)
  {
    if Present(error) then CompilationErrorPanel(error.value)
    else if Truthy(renderError) then RuntimeErrorPanel(renderError)
    else if !Present(compiledCode) then Placeholder
    else MountContainer
  }

  /** The container exists only when the container panel was rendered, so
      once a runtime error is shown the effect bails out at its guard, and
      the error stays until the component is remounted. */
  lemma RuntimeErrorBlocksEffect(compiledCode: Option<string>, error: Option<string>, renderError: JsValue)
    requires Truthy(renderError)
    ensures !EffectRuns(compiledCode, SelectPanel(compiledCode, error, renderError) == MountContainer)
  {
  }

  class PreviewPane {
    /** `rootRef.current`. */
    var root: Option<RootHandle>
    /** The `renderError` state cell. */
    var renderError: JsValue
    /** The root calls made so far, in order. */
    ghost var log: seq<RootEvent>
    /** The identity the next `createRoot` returns. */
    var nextHandle: RootHandle
    /** The `compiledCode` the effect last ran with; None before its first run. */
    var lastCode: Option<Option<string>>
    /** Whether the last run of the effect returned its cleanup function. */
    var cleanupPending: bool

    /** The ref holds the one live root, if any; every root ever created has
        an identity below `nextHandle`. */
    ghost predicate Valid()
      reads this
    {
      && LiveRoots(log) == (if root.Some? then {root.value} else {})
      && (forall e :: e in log && e.Created? ==> e.h < nextHandle)
    }

    /** Between commits, a mounted root is always one the pending cleanup
        will unmount. */
    ghost predicate Settled()
      reads this
    {
      Valid() && (root.Some? ==> cleanupPending)
    }

    constructor()
      ensures root == None && renderError == Null && log == []
      ensures lastCode == None && !cleanupPending
      ensures Settled()
    {
      root := None;
      renderError := Null;
      log := [];
      nextHandle := 0;
      lastCode := None;
      cleanupPending := false;
    }

    /** The event that unmounts the current root, if there is one. */
    ghost function UnmountCurrent(): seq<RootEvent>
      reads this
    {
      if root.Some? then [Unmounted(root.value)] else []
    }

    /** Unmount the root held by the ref, if any, and clear the ref: the
        step before running new code (lines 27-31), in the catch block
        (lines 63-66) and in the effect's cleanup (lines 70-75), which runs
        before the next effect and when the component unmounts. */
    method UnmountRoot()
      requires Valid()
      modifies this
      ensures Valid()
      ensures root == None && log == old(log) + old(UnmountCurrent())
      ensures renderError == old(renderError) && nextHandle == old(nextHandle)
      ensures lastCode == old(lastCode) && cleanupPending == old(cleanupPending)
    {
      if root.Some? {
        LiveRootsAppend(log, Unmounted(root.value));
        log := log + [Unmounted(root.value)];
        root := None;
      }
    }

    /** `createRoot` into the container, kept in the ref, then `render` of the
        component (lines 56-60); the ref is always empty at this point. */
    method MountComponent(component: JsValue)
      requires Valid() && root == None
      modifies this
      ensures Valid()
      ensures root == Some(old(nextHandle)) && nextHandle == old(nextHandle) + 1
      ensures log == old(log) + [Created(old(nextHandle)), Rendered(old(nextHandle), component)]
      ensures renderError == old(renderError)
      ensures lastCode == old(lastCode) && cleanupPending == old(cleanupPending)
    {
      var h := nextHandle;
      LiveRootsAppend(log, Created(h));
      log := log + [Created(h)];
      nextHandle := nextHandle + 1;
      root := Some(h);
      LiveRootsAppend(log, Rendered(h, component));
      log := log + [Rendered(h, component)];
    }

    /** The effect of lines 20-68, run after a render with these props.
        Returns true when the catch block itself throws (reading `message`
        of a thrown `null` or `undefined`), so the effect aborts there. */
    method RunEffect(compiledCode: Option<string>, containerPresent: bool, outcome: Execution)
      returns (aborted: bool)
      requires Valid()
      modifies this
      ensures Valid()
      ensures !EffectRuns(compiledCode, containerPresent) ==>
                !aborted && root == old(root) && renderError == old(renderError) && log == old(log)
                && nextHandle == old(nextHandle)
      ensures EffectRuns(compiledCode, containerPresent) && outcome.Completed? ==>
                && !aborted
                && root == Some(old(nextHandle)) && nextHandle == old(nextHandle) + 1
                && renderError == Null
                && log == old(log) + old(UnmountCurrent())
                          + [Created(old(nextHandle)),
                             Rendered(old(nextHandle), ChooseComponent(outcome.exportsRef, outcome.defaultExport))]
      ensures EffectRuns(compiledCode, containerPresent) && outcome.Threw? ==>
                && aborted == MessageOf(outcome.err).None?
                && root == None && nextHandle == old(nextHandle)
                && renderError == MessageOf(outcome.err).GetOr(Null)
                && log == old(log) + old(UnmountCurrent())
      ensures lastCode == old(lastCode) && cleanupPending == old(cleanupPending)
    {
      aborted := false;
      if !EffectRuns(compiledCode, containerPresent) {
        return;
      }
      renderError := Null;
      UnmountRoot();
      match outcome
      case Completed(exportsRef, defaultExport) =>
        var component := ChooseComponent(exportsRef, defaultExport);
        if !Truthy(component) {
          // The "no component exported" throw of lines 51-53: never taken
          // (ChooseComponent is always truthy).
          assert false;
        }
        MountComponent(component);
      case Threw(err) =>
        var message := MessageOf(err);
        if message.None? {
          aborted := true;
          return;
        }
        renderError := message.value;
        UnmountRoot();
    }
  
    /** A commit of a render with these props: React runs the effect only
        when `compiledCode` differs from the last run's (line 76), and first
        runs the cleanup the last run returned (lines 70-75), if any. A run
        returns its cleanup unless it stopped at the guard or aborted. */
    method Commit(compiledCode: Option<string>, containerPresent: bool, outcome: Execution)
      returns (ran: bool, aborted: bool)
      requires Settled()
      modifies this
      ensures Settled()
      ensures ran <==> old(lastCode) != Some(compiledCode)
      ensures !ran ==>
                && !aborted && root == old(root) && renderError == old(renderError) && log == old(log)
                && nextHandle == old(nextHandle) && lastCode == old(lastCode)
                && cleanupPending == old(cleanupPending)
      ensures ran ==>
                && lastCode == Some(compiledCode)
                && cleanupPending == (EffectRuns(compiledCode, containerPresent) && !aborted)
      ensures ran && !EffectRuns(compiledCode, containerPresent) ==>
                && !aborted && root == None && renderError == old(renderError)
                && nextHandle == old(nextHandle)
      ensures ran && EffectRuns(compiledCode, containerPresent) && outcome.Completed? ==>
                && !aborted && root == Some(old(nextHandle)) && renderError == Null
                && log[|log| - 1] == Rendered(old(nextHandle), ChooseComponent(outcome.exportsRef, outcome.defaultExport))
      ensures ran && EffectRuns(compiledCode, containerPresent) && outcome.Threw? ==>
                && aborted == MessageOf(outcome.err).None? && root == None
                && renderError == MessageOf(outcome.err).GetOr(Null)
    {
      ran := lastCode != Some(compiledCode);
      aborted := false;
      if !ran {
        return;
      }
      if cleanupPending {
        UnmountRoot();
      }
      lastCode := Some(compiledCode);
      aborted := RunEffect(compiledCode, containerPresent, outcome);
      cleanupPending := EffectRuns(compiledCode, containerPresent) && !aborted;
    }

    /** A render followed by its commit: the container is in the DOM exactly
        when the render body chose it. Once a runtime error is shown, no later
        commit clears it or mounts a root. */
    method RenderAndCommit(compiledCode: Option<string>, error: Option<string>, outcome: Execution)
      returns (panel: Panel, ran: bool, aborted: bool)
      requires Settled()
      modifies this
      ensures Settled()
      ensures panel == SelectPanel(compiledCode, error, old(renderError))
      ensures Truthy(old(renderError)) ==> renderError == old(renderError) && !aborted
      ensures Truthy(old(renderError)) && ran ==> root == None
      ensures Truthy(old(renderError)) && !ran ==> root == old(root)
    {
      panel := SelectPanel(compiledCode, error, renderError);
      ran, aborted := Commit(compiledCode, panel == MountContainer, outcome);
    }

    /** The component unmounts: the pending cleanup runs, and no root is left
        alive. */
    method Unmount()
      requires Settled()
      modifies this
      ensures Valid() && root == None && LiveRoots(log) == {}
      ensures renderError == old(renderError)
      ensures log == old(log) + old(UnmountCurrent())
    {
      if cleanupPending {
        UnmountRoot();
        cleanupPending := false;
      }
    }
  }
}
