/**
 * Bilingual text lookup (i18n.ts): two tables from key to a constant text or a
 * template, and a lookup that falls back from the current language to English
 * and then to the key's own name.
 */
module I18n {
  import Format
  import opened Types

  datatype Language = Pt | En

  /** The language the provider starts in. */
  const InitialLanguage: Language := Pt

  /** Every translation key; the TypeScript key type is this closed union of literals. */
  datatype Key =
    | SidebarTitle | SidebarSubtitle
    | PromptSelectPointForCircle | PromptSelectPointForLine | PromptCreatePoint | PromptDefault
    | ControlsTitle | ControlsCreatePoint | ControlsDrawLine | ControlsDrawCircle | ControlsClearBoard
    | StyleTitle
    | PlotterTitle | PlotterLabel | PlotterPlaceholder | PlotterButton | PlotterHint | PlotterErrorAlert
    | ScaleTitle | ScaleReset | ScaleXAxis | ScaleYAxis
    | HistoryTitle | HistoryEmpty
    | HistoryItemPoint | HistoryItemLine | HistoryItemCircle | HistoryItemFunction
    | DeleteAriaLabel
    | LanguageSelectorTitle | LanguageEnglish | LanguagePortuguese

  /** The key as the string the source spells it. */
  function KeyName(k: Key): string {
    match k
    case SidebarTitle => "sidebar.title"
    case SidebarSubtitle => "sidebar.subtitle"
    case PromptSelectPointForCircle => "prompt.selectPointForCircle"
    case PromptSelectPointForLine => "prompt.selectPointForLine"
    case PromptCreatePoint => "prompt.createPoint"
    case PromptDefault => "prompt.default"
    case ControlsTitle => "controls.title"
    case ControlsCreatePoint => "controls.createPoint"
    case ControlsDrawLine => "controls.drawLine"
    case ControlsDrawCircle => "controls.drawCircle"
    case ControlsClearBoard => "controls.clearBoard"
    case StyleTitle => "style.title"
    case PlotterTitle => "plotter.title"
    case PlotterLabel => "plotter.label"
    case PlotterPlaceholder => "plotter.placeholder"
    case PlotterButton => "plotter.button"
    case PlotterHint => "plotter.hint"
    case PlotterErrorAlert => "plotter.error.alert"
    case ScaleTitle => "scale.title"
    case ScaleReset => "scale.reset"
    case ScaleXAxis => "scale.xAxis"
    case ScaleYAxis => "scale.yAxis"
    case HistoryTitle => "history.title"
    case HistoryEmpty => "history.empty"
    case HistoryItemPoint => "history.item.point"
    case HistoryItemLine => "history.item.line"
    case HistoryItemCircle => "history.item.circle"
    case HistoryItemFunction => "history.item.function"
    case DeleteAriaLabel => "delete.ariaLabel"
    case LanguageSelectorTitle => "language.selector.title"
    case LanguageEnglish => "language.english"
    case LanguagePortuguese => "language.portuguese"
  }

  /** An argument handed to a template: the callers pass counts and strings. */
  datatype Arg = Num(n: nat) | Str(s: string)

  /**
   * A table value. `Template(lead, parts)` is the arrow function whose i-th
   * parameter is interpolated just before `parts[i]`, after `lead`.
   */
  datatype Entry = Text(text: string) | Template(lead: string, parts: seq<string>)

  /** Template-literal interpolation of one argument. */
  function ArgText(a: Arg): string {
    match a
    case Num(n) => Format.NatToString(n)
    case Str(s) => s
  }

  /** The holes of a template, filled from `args`; a missing argument reads "undefined". */
  function Holes(parts: seq<string>, args: seq<Arg>): string
    decreases |parts|
  {
    if parts == [] then ""
    else
      (if args == [] then "undefined" else ArgText(args[0])) + parts[0]
        + Holes(parts[1..], if args == [] then [] else args[1..])
  }

  /** A constant is its own text; a template is called on the arguments. */
  function Render(e: Entry, args: seq<Arg>): string {
    match e
    case Text(t) => t
    case Template(lead, parts) => lead + Holes(parts, args)
  }

  /**
   * `translated` once both tables have been indexed by the key: `current` is
   * the current language's entry and `english` the English one, None where
   * the table has no such key.
   */
  function Lookup(current: Option<Entry>, english: Option<Entry>, key: Key, args: seq<Arg>): (r: string)
    ensures current.Some? ==> r == Render(current.value, args)
    ensures current.None? && english.Some? ==> r == Render(english.value, args)
    ensures current.None? && english.None? ==> r == KeyName(key)
  {
    var found := if current.Some? then current else english;
    match found
    case Some(e) => Render(e, args)
    case None => KeyName(key)
  }

  /** `translations.pt`, key by key. */
  function Portuguese(key: Key): Entry {
    match key
    case SidebarTitle => Text("Geometria Demo")
    case SidebarSubtitle => Text("Demo do JSXGraph com React")
    case PromptSelectPointForCircle => Template("Selecione o ponto ", [" de 3 para o círculo."])
    case PromptSelectPointForLine => Template("Selecione o ponto ", [" de 2 para a linha."])
    case PromptCreatePoint => Text("Clique na grade para criar um ponto.")
    case PromptDefault => Text("Selecione um objeto ou escolha uma ação.")
    case ControlsTitle => Text("Controles")
    case ControlsCreatePoint => Text("Criar Ponto")
    case ControlsDrawLine => Text("Desenhar Linha (2 pontos)")
    case ControlsDrawCircle => Text("Desenhar Círculo (3 pontos)")
    case ControlsClearBoard => Text("Limpar Painel")
    case StyleTitle => Text("Cor do Objeto")
    case PlotterTitle => Text("Plotar Função")
    case PlotterLabel => Text("f(x) =")
    case PlotterPlaceholder => Text("ex: x^2 / 2 - 1")
    case PlotterButton => Text("Plotar Função")
    case PlotterHint => Text("Use `^` para potências. Constantes e, pi, phi estão disponíveis. ex: `sin(pi*x)`")
    case PlotterErrorAlert => Template("Não foi possível plotar a função \"",
      ["\".\nFoi interpretada como \"", "\", que é inválida.\nPor favor, verifique erros de sintaxe."])
    case ScaleTitle => Text("Escala dos Eixos")
    case ScaleReset => Text("Redefinir")
    case ScaleXAxis => Text("Eixo X")
    case ScaleYAxis => Text("Eixo Y")
    case HistoryTitle => Text("Histórico")
    case HistoryEmpty => Text("Nenhum objeto criado ainda.")
    case HistoryItemPoint => Template("Ponto (", [", ", ")"])
    case HistoryItemLine => Text("Linha")
    case HistoryItemCircle => Text("Círculo")
    case HistoryItemFunction => Template("f(x) = ", [""])
    case DeleteAriaLabel => Template("Excluir ", [""])
    case LanguageSelectorTitle => Text("Idioma")
    case LanguageEnglish => Text("English")
    case LanguagePortuguese => Text("Português")
  }

  /** `translations.en`, key by key. */
  function English(key: Key): Entry {
    match key
    case SidebarTitle => Text("Geometry Pad")
    case SidebarSubtitle => Text("JSXGraph and React Demo")
    case PromptSelectPointForCircle => Template("Select point ", [" of 3 for the circle."])
    case PromptSelectPointForLine => Template("Select point ", [" of 2 for the line."])
    case PromptCreatePoint => Text("Click on the grid to create a point.")
    case PromptDefault => Text("Select an object or choose an action.")
    case ControlsTitle => Text("Controls")
    case ControlsCreatePoint => Text("Create Point")
    case ControlsDrawLine => Text("Draw Line (2 points)")
    case ControlsDrawCircle => Text("Draw Circle (3 points)")
    case ControlsClearBoard => Text("Clear Board")
    case StyleTitle => Text("Object Collor")
    case PlotterTitle => Text("Plot Function")
    case PlotterLabel => Text("f(x) =")
    case PlotterPlaceholder => Text("e.g., x^2 / 2 - 1")
    case PlotterButton => Text("Plot Function")
    case PlotterHint => Text("Use `^` for powers. Constants e, pi, phi are available. e.g., `sin(pi*x)`")
    case PlotterErrorAlert => Template("Could not plot function \"",
      ["\".\nIt was interpreted as \"", "\", which is invalid.\nPlease check for syntax errors."])
    case ScaleTitle => Text("Axis Scale")
    case ScaleReset => Text("Reset")
    case ScaleXAxis => Text("X-Axis")
    case ScaleYAxis => Text("Y-Axis")
    case HistoryTitle => Text("History")
    case HistoryEmpty => Text("No objects created yet.")
    case HistoryItemPoint => Template("Point (", [", ", ")"])
    case HistoryItemLine => Text("Line")
    case HistoryItemCircle => Text("Circle")
    case HistoryItemFunction => Template("f(x) = ", [""])
    case DeleteAriaLabel => Template("Delete ", [""])
    case LanguageSelectorTitle => Text("Language")
    case LanguageEnglish => Text("English")
    case LanguagePortuguese => Text("Português")
  }

  /** `translations[language][key]`: both tables define every key. */
  function Table(language: Language, key: Key): Option<Entry> {
    match language
    case Pt => Some(Portuguese(key))
    case En => Some(English(key))
  }

  /** `translated(key, ...args)` in the given current language. */
  function Translated(language: Language, key: Key, args: seq<Arg>): string {
    Lookup(Table(language, key), Table(En, key), key, args)
  }

  /** Both tables define every key, so the English and key-name fallbacks never fire. */
  lemma TablesAreComplete(language: Language, key: Key, args: seq<Arg>)
    ensures Table(language, key).Some? && Table(En, key).Some?
    ensures Translated(language, key, args) == Render(Table(language, key).value, args)
  {
  }

  /** A template ignores arguments beyond its parameters, as a JavaScript call does. */
  lemma {:induction false} HolesIgnoreExtraArgs(parts: seq<string>, args: seq<Arg>, extra: seq<Arg>)
    requires |args| >= |parts|
    ensures Holes(parts, args + extra) == Holes(parts, args)
    decreases |parts|
  {
    if parts != [] {
      assert (args + extra)[1..] == args[1..] + extra;
      HolesIgnoreExtraArgs(parts[1..], args[1..], extra);
    }
  }

  /** With one argument per parameter, each hole holds that argument's text. */
  lemma {:induction false} HolesOfTwo(p0: string, p1: string, a0: Arg, a1: Arg)
    ensures Holes([p0, p1], [a0, a1]) == ArgText(a0) + p0 + ArgText(a1) + p1
  {
    assert [p0, p1][1..] == [p1];
    assert [a0, a1][1..] == [a1];
    assert [p1][1..] == [];
    assert [a1][1..] == [];
    assert Holes([p1], [a1]) == ArgText(a1) + p1 + Holes([], []);
  }

  /**
   * A template called with no arguments interpolates "undefined" in every
   * hole: the same text as passing the string "undefined" for each parameter.
   */
  lemma {:induction false} HolesWithoutArgs(parts: seq<string>)
    ensures Holes(parts, []) == Holes(parts, seq(|parts|, _ => Str("undefined")))
    decreases |parts|
  {
    if parts != [] {
      var all := seq(|parts|, _ => Str("undefined"));
      assert all[1..] == seq(|parts| - 1, _ => Str("undefined"));
      HolesWithoutArgs(parts[1..]);
    }
  }

  lemma EnglishLinePrompt(n: nat)
    ensures Translated(En, PromptSelectPointForLine, [Num(n)])
         == "Select point " + Format.NatToString(n) + " of 2 for the line."
  {
    assert [Num(n)][1..] == [];
    assert [" of 2 for the line."][1..] == [];
  }

  lemma EnglishCirclePrompt(n: nat)
    ensures Translated(En, PromptSelectPointForCircle, [Num(n)])
         == "Select point " + Format.NatToString(n) + " of 3 for the circle."
  {
    assert [Num(n)][1..] == [];
    assert [" of 3 for the circle."][1..] == [];
  }

  /** The function label is the same in both languages. */
  lemma FunctionLabel(language: Language, p: string)
    ensures Translated(language, HistoryItemFunction, [Str(p)]) == "f(x) = " + p
  {
    assert [Str(p)][1..] == [];
    assert [""][1..] == [];
  }
}
