/** The editor/preview state of the `Sandbox` component
    (app/components/Sandbox.tsx): the `code` and `showPreview` state cells,
    the props they are derived from, and the four ways they change. */
module SandboxState {
  import opened Optional
  import opened Text
  import opened Template
  import Exercises

  /** `exercise?.template`: the value the template effect depends on. */
  function TemplateKey(exercise: Option<ExerciseProps>): (k: Option<string>)
    ensures k.Some? <==> exercise.Some?
    ensures exercise.Some? ==> k.value == exercise.value.template
  {
    match exercise
    case None => None
    case Some(e) => Some(e.template)
  }

  /** What the preview pane shows: the live preview of the code, or the prompt
      to press the button. */
  datatype PreviewArea = LivePreview(code: string) | TryCodePrompt

  class Sandbox {
    /** The current props. */
    var initialCode: string
    var exercise: Option<ExerciseProps>
    /** The state cells. */
    var code: string
    var showPreview: bool

    /** The preview is only ever switched on for code that is not blank. */
    ghost predicate Valid()
      reads this
    {
      showPreview ==> !IsBlank(code)
    }

    /** First render, followed by the template effect's first run: both set
        `code` to `getTemplate()` and leave the preview off. */
    constructor(initialCode: string, exercise: Option<ExerciseProps>)
      ensures this.initialCode == initialCode && this.exercise == exercise
      ensures code == GetTemplate(initialCode, exercise) && !showPreview
      ensures Valid()
    {
      this.initialCode := initialCode;
      this.exercise := exercise;
      code := GetTemplate(initialCode, exercise);
      showPreview := false;
    }

    /** A re-render with new props. The effect runs only when
        `exercise?.template` differs from the previous render's; it then
        recomputes the template from the props of this render. */
    method ReceiveProps(newInitialCode: string, newExercise: Option<ExerciseProps>)
      requires Valid()
      modifies this
      ensures initialCode == newInitialCode && exercise == newExercise
      ensures TemplateKey(newExercise) != TemplateKey(old(exercise)) ==>
                code == GetTemplate(newInitialCode, newExercise) && !showPreview
      ensures TemplateKey(newExercise) == TemplateKey(old(exercise)) ==>
                code == old(code) && showPreview == old(showPreview)
      ensures Valid()
    {
      var changed := TemplateKey(newExercise) != TemplateKey(exercise);
      initialCode := newInitialCode;
      exercise := newExercise;
      if changed {
        code := GetTemplate(initialCode, exercise);
        showPreview := false;
      }
    }

    /** The editor's `onChange`: an absent value counts as empty text, and any
        edit hides the preview. */
    method EditorChange(value: Option<string>)
      modifies this
      ensures code == value.GetOr([]) && !showPreview
      ensures initialCode == old(initialCode) && exercise == old(exercise)
      ensures Valid()
    {
      code := value.GetOr([]);
      showPreview := false;
    }

    /** Whether the "try code" button is disabled: the code is whitespace only. */
    predicate TryCodeDisabled()
      reads this
      ensures TryCodeDisabled() <==> forall k :: 0 <= k < |code| ==> IsWhitespace(code[k])
    {
      BlankIffAllWhitespace(code);
      IsBlank(code)
    }

    /** `handleTryCode`: shows the preview unless the code is blank, in which
        case nothing changes. */
    method TryCode()
      requires Valid()
      modifies this
      ensures IsBlank(code) ==> showPreview == old(showPreview)
      ensures !IsBlank(code) ==> showPreview
      ensures code == old(code) && initialCode == old(initialCode) && exercise == old(exercise)
      ensures Valid()
    {
      if IsBlank(code) {
        return;
      }
      showPreview := true;
    }

    /** The preview pane: the live preview of the current code once shown,
        otherwise the prompt. */
    function Preview(): (p: PreviewArea)
      reads this
      requires Valid()
      ensures p.LivePreview? <==> showPreview
      ensures p.LivePreview? ==> p.code == code && !IsBlank(p.code)
    {
      if showPreview then LivePreview(code) else TryCodePrompt
    }
  }

  /** A whitespace-only edit can never be previewed: the edit hides the
      preview, and pressing the button afterwards keeps it hidden. */
  method EditThenTry(s: Sandbox, value: string)
    requires s.Valid() && IsBlank(value)
    modifies s
    ensures !s.showPreview && s.code == value
  {
    s.EditorChange(Some(value));
    s.TryCode();
  }

  /** Pressing the button on the starting code of a fresh sandbox previews
      exactly that code whenever it is not blank. */
  method StartAndTry(initialCode: string, exercise: Option<ExerciseProps>) returns (shown: PreviewArea)
    ensures IsBlank(GetTemplate(initialCode, exercise)) ==> shown == TryCodePrompt
    ensures !IsBlank(GetTemplate(initialCode, exercise)) ==> shown == LivePreview(GetTemplate(initialCode, exercise))
  {
    var s := new Sandbox(initialCode, exercise);
    s.TryCode();
    shown := s.Preview();
  }

  /** The `exercise` prop an exercise page passes for a catalog entry. */
  function PropsOf(e: Exercises.Exercise): (r: ExerciseProps)
    ensures r.title == e.Title() && r.description == e.Description()
    ensures TemplateKey(Some(r)) == Some(e.Template())
  {
    ExerciseProps(e.Title(), e.Description(), e.Template())
  }

  /** Every catalog template passes `isValidTemplate`. */
  lemma CatalogTemplatesValid()
    ensures forall e :: e in Exercises.Catalog() ==> IsValidTemplate(e.Template())
  {
    forall i | 0 <= i < |Exercises.Catalog()|
      ensures IsValidTemplate(Exercises.Catalog()[i].Template())
    {
      if i == 0 {
        HelloWorldTemplateValid();
      } else if i == 1 {
        JsxBasicsTemplateValid();
      } else if i == 2 {
        UsingPropsTemplateValid();
      } else if i == 3 {
        StateBasicsTemplateValid();
      } else {
        ConditionalRenderingTemplateValid();
      }
    }
  }

  lemma HelloWorldTemplateValid()
    ensures IsValidTemplate(Exercises.HelloWorld().Template())
  {
    var t := Exercises.HelloWorldText(Exercises.TextField.Template);
    assert t[..8] == "function";
    FunctionSourceValid(t);
  }

  lemma JsxBasicsTemplateValid()
    ensures IsValidTemplate(Exercises.JsxBasics().Template())
  {
    var t := Exercises.JsxBasicsText(Exercises.TextField.Template);
    assert t[..8] == "function";
    FunctionSourceValid(t);
  }

  lemma UsingPropsTemplateValid()
    ensures IsValidTemplate(Exercises.UsingProps().Template())
  {
    var t := Exercises.UsingPropsText(Exercises.TextField.Template);
    assert t[..8] == "function";
    FunctionSourceValid(t);
  }

  lemma StateBasicsTemplateValid()
    ensures IsValidTemplate(Exercises.StateBasics().Template())
  {
    var t := Exercises.StateBasicsText(Exercises.TextField.Template);
    assert t[..8] == "function";
    FunctionSourceValid(t);
  }

  lemma ConditionalRenderingTemplateValid()
    ensures IsValidTemplate(Exercises.ConditionalRendering().Template())
  {
    var t := Exercises.ConditionalRenderingText(Exercises.TextField.Template);
    assert t[..8] == "function";
    FunctionSourceValid(t);
  }

  /** On a catalog exercise's page the editor starts from that exercise's own
      template, whatever initial code is passed. */
  lemma CatalogTemplateChosen(initialCode: string, e: Exercises.Exercise)
    requires e in Exercises.Catalog()
    ensures SelectTemplate(initialCode, Some(PropsOf(e))) == e.Template()
    ensures GetTemplate(initialCode, Some(PropsOf(e)))
              == Trim(Strip(ExportKeyword, Strip(ExportDefault, Strip(ImportDecl, e.Template()))))
  {
    CatalogTemplatesValid();
  }
}
