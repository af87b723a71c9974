/** The exercise catalog: a constant list of exercise records and its two
    read-only accessors, filter by category and find by id
    (app/data/exercises.ts). */
module Exercises {
  import opened Optional

  datatype Difficulty = Beginner | Intermediate | Advanced

  datatype Category = Fundamentals | Challenges | Projects

  datatype Step = Step(title: string, description: string)

  datatype Steps = Steps(step1: Step, step2: Step, step3: Step)

  /** The optional structured explanation shown beside the editor. */
  datatype Explanation = Explanation(
    title: string,
    intro: string,
    exampleTitle: string,
    exampleDescription: string,
    steps: Steps,
    yourTask: string,
    hint: string)

  /** The text fields of an exercise, including those of its explanation. */
  datatype TextField =
    | Title | Description | Template
    | ExplanationTitle | Intro | ExampleTitle | ExampleDescription
    | Step1Title | Step1Description | Step2Title | Step2Description | Step3Title | Step3Description
    | YourTask | Hint

  /** An exercise record. Its texts are held by a table from field to text
      (`texts`), so that reasoning about ids and categories never has to
      unfold them; the accessors below give the record's text fields. */
  datatype Exercise = Exercise(
    id: string,
    difficulty: Difficulty,
    category: Category,
    texts: TextField -> string,
    hasExplanation: bool)
  {
    function Title(): string { texts(TextField.Title) }

    function Description(): string { texts(TextField.Description) }

    function Template(): string { texts(TextField.Template) }

    /** The optional structured explanation. */
    function Explained(): Option<Explanation> {
      if !hasExplanation then None
      else Some(Explanation(
        title := texts(ExplanationTitle),
        intro := texts(Intro),
        exampleTitle := texts(ExampleTitle),
        exampleDescription := texts(ExampleDescription),
        steps := Steps(
          Step(texts(Step1Title), texts(Step1Description)),
          Step(texts(Step2Title), texts(Step2Description)),
          Step(texts(Step3Title), texts(Step3Description))),
        yourTask := texts(YourTask),
        hint := texts(Hint)))
    }
  }

  /** `exercises`: the whole catalog, in definition order. */
  function Catalog(): (r: seq<Exercise>)
    ensures |r| == 5
  {
    [HelloWorld(), JsxBasics(), UsingProps(), StateBasics(), ConditionalRendering()]
  }

  function HelloWorld(): Exercise {
    Exercise("hello-world", Beginner, Fundamentals, HelloWorldText, hasExplanation := true)
  }

  function HelloWorldText(f: TextField): string {
    match f
    case Title =>
      "Hello World Component"
    case Description =>
      "Create your first React component "
        + "that displays \"Hello, World!\""
    case Template =>
      "function HelloWorld() {\n"
        + ("  // Write your code here\n"
        + "  return (\n"
        + "    <div>\n"
        + "      {/* Your JSX goes here "
        + "*/}\n"
        + "    </div>\n"
        + "  );\n"
        + "}")
    case ExplanationTitle =>
      "Your First React Component"
    case Intro =>
      "A React component is a JavaScript "
        + "function that returns JSX to "
        + "describe what appears on screen."
    case ExampleTitle =>
      "Example Component"
    case ExampleDescription =>
      "Here is what a complete component "
        + "looks like:"
    case Step1Title =>
      "1. Function Declaration"
    case Step1Description =>
      "Start with a function. The name "
        + "should start with a capital "
        + "letter."
    case Step2Title =>
      "2. Return JSX"
    case Step2Description =>
      "Return JSX (looks like HTML) "
        + "to describe your UI."
    case Step3Title =>
      "3. Export (Optional)"
    case Step3Description =>
      "In react-live, you don't need "
        + "to export - just define the "
        + "function."
    case YourTask =>
      "Your task: Write a component "
        + "that displays \"Hello, World!\""
    case Hint =>
      "\U{1F4A1} Hint: Use an h1 tag inside "
        + "a div to display the text."
  }

  function JsxBasics(): Exercise {
    Exercise("jsx-basics", Beginner, Fundamentals, JsxBasicsText, hasExplanation := true)
  }

  function JsxBasicsText(f: TextField): string {
    match f
    case Title =>
      "JSX Basics"
    case Description =>
      "Learn JSX syntax: elements, "
        + "attributes, and nesting"
    case Template =>
      "function JSXBasics() {\n"
        + ("  return (\n"
        + "    <div>\n"
        + "      {/* Add a heading with "
        + "className=\"title\" */}\n"
        + "      {/* Add a paragraph with "
        + "className=\"description\" */}\n"
        + "      {/* Add an image with "
        + "src=\"https://via.placeholder.com/150\" "
        + "and alt=\"Placeholder\" */}\n"
        + "      {/* Add className=\"image\" "
        + "to the image */}\n"
        + "    </div>\n"
        + "  );\n"
        + "}")
    case ExplanationTitle =>
      "JSX Basics"
    case Intro =>
      "JSX looks like HTML but it's "
        + "actually JavaScript. You can "
        + "use HTML-like syntax to create "
        + "React elements."
    case ExampleTitle =>
      "JSX Example"
    case ExampleDescription =>
      "Here are common JSX patterns:"
    case Step1Title =>
      "1. Elements"
    case Step1Description =>
      "Use HTML-like tags: <div>, <h1>, "
        + "<p>, <img>, etc."
    case Step2Title =>
      "2. Attributes & Styling"
    case Step2Description =>
      "Use className for CSS classes, "
        + "or style={{}} for inline styles. "
        + "Use camelCase: fontSize, not "
        + "font-size."
    case Step3Title =>
      "3. Self-closing Tags"
    case Step3Description =>
      "Tags like <img /> and <br /> "
        + "must be self-closing in JSX."
    case YourTask =>
      "Your task: Create a heading, "
        + "paragraph, and image using JSX "
        + "with className attributes"
    case Hint =>
      "\U{1F4A1} Hint: Add className=\"title\" "
        + "to heading, className=\"description\" "
        + "to paragraph, and className=\"image\" "
        + "to image. Image tags must be "
        + "self-closing: <img />"
  }

  function UsingProps(): Exercise {
    Exercise("using-props", Beginner, Fundamentals, UsingPropsText, hasExplanation := true)
  }

  function UsingPropsText(f: TextField): string {
    match f
    case Title =>
      "Using Props"
    case Description =>
      "Learn how to pass and use props "
        + "in components"
    case Template =>
      "function Greeting(props) {\n"
        + ("  // Use props.name to display "
        + "a personalized greeting\n"
        + "  return (\n"
        + "    <div>\n"
        + "      {/* Display: \"Hello, [name]!\" "
        + "*/}\n"
        + "    </div>\n"
        + "  );\n"
        + "}\n"
        + "\n"
        + "// This will be called with: "
        + "<Greeting name=\"Alice\" />\n"
        + "function App() {\n"
        + "  return <Greeting name=\"Alice\" "
        + "/>;\n"
        + "}\n"
        + "\n"
        + "// For react-live, we need to "
        + "render App\n"
        + "App")
    case ExplanationTitle =>
      "Using Props"
    case Intro =>
      "Props (short for properties) "
        + "let you pass data into components, "
        + "making them reusable."
    case ExampleTitle =>
      "Props Example"
    case ExampleDescription =>
      "Here's how props work:"
    case Step1Title =>
      "1. Accept Props"
    case Step1Description =>
      "Your function receives props "
        + "as a parameter: function Component(props"
        + ")"
    case Step2Title =>
      "2. Use Props"
    case Step2Description =>
      "Access props with dot notation: "
        + "props.name, props.age"
    case Step3Title =>
      "3. Pass Props"
    case Step3Description =>
      "When using the component, pass "
        + "data as attributes: <Component "
        + "name=\"Alice\" />"
    case YourTask =>
      "Your task: Display a greeting "
        + "using the name from props"
    case Hint =>
      "\U{1F4A1} Hint: Use props.name inside "
        + "curly braces: {props.name}"
  }

  function StateBasics(): Exercise {
    Exercise("state-basics", Beginner, Fundamentals, StateBasicsText, hasExplanation := true)
  }

  function StateBasicsText(f: TextField): string {
    match f
    case Title =>
      "State Basics"
    case Description =>
      "Learn to use useState to manage "
        + "component state"
    case Template =>
      "function Counter() {\n"
        + ("  // Use useState to create "
        + "a count state starting at 0\n"
        + "  // const [count, setCount] "
        + "= useState(0);\n"
        + "  \n"
        + "  return (\n"
        + "    <div>\n"
        + "      {/* Display the count "
        + "*/}\n"
        + "      {/* Add a button that "
        + "increments count when clicked "
        + "*/}\n"
        + "      <button onClick={() => "
        + "{}}>\n"
        + "        Click me!\n"
        + "      </button>\n"
        + "    </div>\n"
        + "  );\n"
        + "}")
    case ExplanationTitle =>
      "State Basics"
    case Intro =>
      "State lets components remember "
        + "and update information. Use "
        + "useState to add state to your "
        + "component."
    case ExampleTitle =>
      "useState Example"
    case ExampleDescription =>
      "Here's how to use state:"
    case Step1Title =>
      "1. Import useState"
    case Step1Description =>
      "In react-live, useState is available. "
        + "Create state: const [value, "
        + "setValue] = useState(initialValue)"
    case Step2Title =>
      "2. Read State"
    case Step2Description =>
      "Use the state variable directly: "
        + "{count}"
    case Step3Title =>
      "3. Update State"
    case Step3Description =>
      "Use the setter function: setCount(count "
        + "+ 1) or setCount(prev => prev "
        + "+ 1)"
    case YourTask =>
      "Your task: Create a counter "
        + "that increments when the button "
        + "is clicked"
    case Hint =>
      "\U{1F4A1} Hint: useState(0) returns "
        + "[count, setCount]. Use setCount "
        + "in onClick."
  }

  function ConditionalRendering(): Exercise {
    Exercise("conditional-rendering", Beginner, Fundamentals, ConditionalRenderingText, hasExplanation := true)
  }

  function ConditionalRenderingText(f: TextField): string {
    match f
    case Title =>
      "Conditional Rendering"
    case Description =>
      "Learn to show/hide elements "
        + "based on conditions"
    case Template =>
      "function ToggleBox() {\n"
        + ("  const [isVisible, setIsVisible] "
        + "= useState(true);\n"
        + "  \n"
        + "  return (\n"
        + "    <div>\n"
        + "      <button onClick={() => "
        + "setIsVisible(!isVisible)}>\n"
        + "        {isVisible ? 'Hide' "
        + ": 'Show'} Box\n"
        + "      </button>\n"
        + "      {/* Only show the box "
        + "when isVisible is true */}\n"
        + "      {/* Use conditional rendering: "
        + "{isVisible && <div>...</div>} "
        + "*/}\n"
        + "    </div>\n"
        + "  );\n"
        + "}")
    case ExplanationTitle =>
      "Conditional Rendering"
    case Intro =>
      "You can conditionally show or "
        + "hide elements using JavaScript "
        + "operators like && and ternary "
        + "operators."
    case ExampleTitle =>
      "Conditional Patterns"
    case ExampleDescription =>
      "Common ways to conditionally "
        + "render:"
    case Step1Title =>
      "1. && Operator"
    case Step1Description =>
      "Show if true: {condition && "
        + "<Element />}"
    case Step2Title =>
      "2. Ternary Operator"
    case Step2Description =>
      "Show one or the other: {condition "
        + "? <A /> : <B />}"
    case Step3Title =>
      "3. Early Return"
    case Step3Description =>
      "Return null to show nothing: "
        + "if (!condition) return null;"
    case YourTask =>
      "Your task: Make the box appear/disappear"
        + " when clicking the button"
    case Hint =>
      "\U{1F4A1} Hint: Use {isVisible && <div "
        + "className=\"box\">I am a box!</div>}"
  }

  /** `xs.filter(ex => ex.category === c)`: the entries of category c, in order. */
  function FilterByCategory(xs: seq<Exercise>, c: Category): (r: seq<Exercise>)
    ensures |r| <= |xs|
    ensures forall e :: e in r <==> e in xs && e.category == c
  {
    if xs == [] then []
    else (if xs[0].category == c then [xs[0]] else []) + FilterByCategory(xs[1..], c)
  }

  /** `getExercisesByCategory`. */
  function GetExercisesByCategory(c: Category): (r: seq<Exercise>)
    ensures forall e :: e in r <==> e in Catalog() && e.category == c
  {
    FilterByCategory(Catalog(), c)
  }

  /** Filtering keeps the catalog's order: the filter of a concatenation is
      the concatenation of the filters. */
  lemma {:induction false} FilterAppend(xs: seq<Exercise>, ys: seq<Exercise>, c: Category)
    ensures FilterByCategory(xs + ys, c) == FilterByCategory(xs, c) + FilterByCategory(ys, c)
  {
    if xs == [] {
      assert xs + ys == ys;
    } else {
      var head := if xs[0].category == c then [xs[0]] else [];
      assert (xs + ys)[0] == xs[0] && (xs + ys)[1..] == xs[1..] + ys;
      calc {
        FilterByCategory(xs + ys, c);
        == { FilterCons(xs + ys, c); }
        head + FilterByCategory(xs[1..] + ys, c);
        == { FilterAppend(xs[1..], ys, c); }
        head + (FilterByCategory(xs[1..], c) + FilterByCategory(ys, c));
        ==
        (head + FilterByCategory(xs[1..], c)) + FilterByCategory(ys, c);
        == { FilterCons(xs, c); }
        FilterByCategory(xs, c) + FilterByCategory(ys, c);
      }
    }
  }

  /** One step of the filter: the first entry, if it has category c, then
      the filter of the rest. */
  lemma FilterCons(xs: seq<Exercise>, c: Category)
    requires xs != []
    ensures FilterByCategory(xs, c) == (if xs[0].category == c then [xs[0]] else []) + FilterByCategory(xs[1..], c)
  {
  }

  /** `xs.findIndex(ex => ex.id === id)`: the first index holding id, or -1. */
  function IndexOfId(xs: seq<Exercise>, id: string): (r: int)
    ensures -1 <= r < |xs|
    ensures r >= 0 ==> xs[r].id == id && forall j :: 0 <= j < r ==> xs[j].id != id
    ensures r == -1 <==> forall j :: 0 <= j < |xs| ==> xs[j].id != id
  {
    if xs == [] then -1
    else if xs[0].id == id then 0
    else
      var k := IndexOfId(xs[1..], id);
      if k < 0 then -1 else k + 1
  }

  /** `xs.find(ex => ex.id === id)`: the first entry with that id, or absent. */
  function FindById(xs: seq<Exercise>, id: string): (r: Option<Exercise>)
    ensures r.Some? ==> r.value.id == id && r.value in xs
    ensures r.Some? ==> exists k :: 0 <= k < |xs| && xs[k] == r.value && forall j :: 0 <= j < k ==> xs[j].id != id
    ensures r.None? <==> forall e :: e in xs ==> e.id != id
  {
    var k := IndexOfId(xs, id);
    if k < 0 then None else Some(xs[k])
  }

  /** `getExerciseById`. */
  function GetExerciseById(id: string): (r: Option<Exercise>)
    ensures r.Some? ==> r.value in Catalog() && r.value.id == id
    ensures r.None? <==> forall e :: e in Catalog() ==> e.id != id
  {
    FindById(Catalog(), id)
  }

  /** Catalog ids are pairwise distinct. */
  lemma CatalogIdsDistinct()
    ensures forall i, j :: 0 <= i < j < |Catalog()| ==> Catalog()[i].id != Catalog()[j].id
  {
  }

  /** Every catalog entry is a beginner exercise of the fundamentals category. */
  lemma CatalogAllFundamentals()
    ensures |Catalog()| == 5
    ensures forall e :: e in Catalog() ==> e.category == Fundamentals && e.difficulty == Beginner
  {
  }

  /** The first two entries of the catalog. */
  lemma CatalogFirstIds()
    ensures |Catalog()| == 5
    ensures Catalog()[0].id == "hello-world" && Catalog()[1].id == "jsx-basics"
  {
  }

  /** With distinct ids, every entry is found by its own id. */
  lemma {:induction false} FindOwnId(xs: seq<Exercise>, i: nat)
    requires i < |xs|
    requires forall k, l :: 0 <= k < l < |xs| ==> xs[k].id != xs[l].id
    ensures FindById(xs, xs[i].id) == Some(xs[i])
    ensures IndexOfId(xs, xs[i].id) == i
  {
    var k := IndexOfId(xs, xs[i].id);
    assert k == i;
  }

  /** An entry is found by its own id, and it is listed in its category. */
  lemma CatalogEntryFound(i: nat)
    requires i < |Catalog()|
    ensures GetExerciseById(Catalog()[i].id) == Some(Catalog()[i])
    ensures Catalog()[i] in GetExercisesByCategory(Catalog()[i].category)
  {
    CatalogIdsDistinct();
    FindOwnId(Catalog(), i);
  }

  /** Whatever `getExerciseById` finds is listed by `getExercisesByCategory`
      for its own category. */
  lemma FoundExerciseInItsCategory(id: string)
    ensures GetExerciseById(id).Some? ==>
              GetExerciseById(id).value in GetExercisesByCategory(GetExerciseById(id).value.category)
  {
  }

  /** Filtering a list whose entries all have category c returns the list. */
  lemma {:induction false} FilterAllMatching(xs: seq<Exercise>, c: Category)
    requires forall e :: e in xs ==> e.category == c
    ensures FilterByCategory(xs, c) == xs
  {
    if xs != [] {
      FilterAllMatching(xs[1..], c);
    }
  }

  /** Filtering a list none of whose entries has category c returns nothing. */
  lemma {:induction false} FilterNoneMatching(xs: seq<Exercise>, c: Category)
    requires forall e :: e in xs ==> e.category != c
    ensures FilterByCategory(xs, c) == []
  {
    if xs != [] {
      FilterNoneMatching(xs[1..], c);
    }
  }

  /** The fundamentals list is the whole catalog; the other two lists are empty. */
  lemma CategoryLists()
    ensures GetExercisesByCategory(Fundamentals) == Catalog()
    ensures GetExercisesByCategory(Challenges) == []
    ensures GetExercisesByCategory(Projects) == []
  {
    CatalogAllFundamentals();
    FilterAllMatching(Catalog(), Fundamentals);
    FilterNoneMatching(Catalog(), Challenges);
    FilterNoneMatching(Catalog(), Projects);
  }

  /** Lookup of an id the catalog does not hold reports absence. */
  lemma MissingIdNotFound()
    ensures GetExerciseById("missing-id") == None
  {
  }
}
