/**
 * The pure parts of `summarizer.py`: the `MODELS` table and its fallback lookup
 * in `load_model`, the style prompt of `apply_style_prompt`, and the output
 * formatting of `post_process`.
 */
module Summarizer {
  import opened Strings

  const BART := "facebook/bart-large-cnn"
  const T5 := "t5-base"
  const PEGASUS := "google/pegasus-xsum"

  /** `MODELS`: the model choices and the Hugging Face model each one loads. */
  const MODELS: map<string, string> := map["1" := BART, "2" := T5, "3" := PEGASUS]

  /** `MODELS.get(model_choice, MODELS["1"])`: a known choice picks its model, anything else BART. */
  function ResolveModel(choice: string): (name: string)
    ensures name in MODELS.Values
    ensures choice in MODELS ==> name == MODELS[choice]
    ensures choice !in MODELS ==> name == BART
  {
    if choice in MODELS then MODELS[choice] else MODELS["1"]
  }

  /** Only choice "2" selects a model that takes instruction prefixes. */
  lemma OnlyChoiceTwoIsT5(choice: string)
    ensures StartsWith(ResolveModel(choice), "t5") <==> choice == "2"
  {
    assert BART[..2] != "t5" by { assert BART[0] == 'f'; }
    assert PEGASUS[..2] != "t5" by { assert PEGASUS[0] == 'g'; }
    assert T5[..2] == "t5";
  }

  const DEFAULT_PROMPT := "summarize: "
  const BULLET_PROMPT := "summarize in bullet points: "
  const HEADLINE_PROMPT := "summarize as headlines: "

  /**
   * `apply_style_prompt(text, style, model_name)`. A T5 model gets exactly one
   * instruction prepended, chosen by the style code; every other model gets
   * `text` unchanged whatever the style.
   */
  function ApplyStylePrompt(text: string, style: string, modelName: string): (prompt: string)
    ensures |text| <= |prompt| && prompt[|prompt| - |text|..] == text
    ensures prompt == text <==> !StartsWith(modelName, "t5")
    ensures StartsWith(modelName, "t5") ==>
      var prefix := prompt[..|prompt| - |text|];
      && (prefix == BULLET_PROMPT <==> style == "2")
      && (prefix == HEADLINE_PROMPT <==> style == "3")
      && (prefix == DEFAULT_PROMPT <==> style != "2" && style != "3")
  {
    if StartsWith(modelName, "t5") then
      if style == "2" then
        BULLET_PROMPT + text
      else if style == "3" then
        HEADLINE_PROMPT + text
      else
        DEFAULT_PROMPT + text
    else
      text
  }

  /** The three instructions differ, and none is a prefix of another. */
  lemma PromptsApart()
    ensures DEFAULT_PROMPT[9] == ':' && BULLET_PROMPT[9] == ' ' && HEADLINE_PROMPT[9] == ' '
    ensures BULLET_PROMPT[10] == 'i' && HEADLINE_PROMPT[10] == 'a'
  {
  }

  /**
   * A prompt sent to a T5 model determines the chunk it was built from and the
   * style family it asks for: no two different chunks or styles give the same prompt.
   */
  lemma PromptDeterminesChunk(t1: string, s1: string, t2: string, s2: string, modelName: string)
    requires StartsWith(modelName, "t5")
    requires ApplyStylePrompt(t1, s1, modelName) == ApplyStylePrompt(t2, s2, modelName)
    ensures t1 == t2
    ensures (s1 == "2" <==> s2 == "2") && (s1 == "3" <==> s2 == "3")
  {
    var p := ApplyStylePrompt(t1, s1, modelName);
    var p1, p2 := p[..|p| - |t1|], p[..|p| - |t2|];
    PromptsApart();
    assert p == p1 + t1 && p == p2 + t2;
    assert p[9] == p1[9] == p2[9];
    assert (p1 == BULLET_PROMPT || p1 == HEADLINE_PROMPT) ==> p[10] == p1[10];
    assert (p2 == BULLET_PROMPT || p2 == HEADLINE_PROMPT) ==> p[10] == p2[10];
    assert p1 == p2;
  }

  /** The line markers of the bullet and headline styles. */
  const BULLET_MARK := "\n\U{2022} "
  const HEADLINE_MARK := "\n- "

  /** Each marker starts a new line and holds no other line break. */
  lemma MarksHoldOneBreak()
    ensures CountChar(BULLET_MARK, '\n') == 1 && CountChar(HEADLINE_MARK, '\n') == 1
  {
    assert BULLET_MARK[..2] == "\n\U{2022}" && BULLET_MARK[..2][..1] == "\n" && "\n"[..0] == [];
    assert HEADLINE_MARK[..2] == "\n-" && HEADLINE_MARK[..2][..1] == "\n";
  }

  /**
   * `post_process(summary, style)`, with `sent_tokenize` given as `segment`:
   * style "2" puts each sentence behind a bullet marker, style "3" behind a dash,
   * any other style keeps the summary as it is.
   */
  function PostProcess(summary: string, style: string, segment: string -> seq<string>): (out: string)
    ensures style != "2" && style != "3" ==> out == summary
  {
    if style == "2" then
      BULLET_MARK + Join(segment(summary), BULLET_MARK)
    else if style == "3" then
      HEADLINE_MARK + Join(segment(summary), HEADLINE_MARK)
    else
      summary
  }

  /** The default style is the identity, hence idempotent. */
  lemma DefaultPostProcessIdempotent(summary: string, style: string, segment: string -> seq<string>)
    requires style != "2" && style != "3"
    ensures PostProcess(PostProcess(summary, style, segment), style, segment) == PostProcess(summary, style, segment)
  {
  }

  /**
   * Bullet and headline styles put every sentence of the summary behind its own
   * marker, in order; with no sentences the result is the bare marker.
   */
  lemma ListStylesMarkEverySentence(summary: string, style: string, segment: string -> seq<string>)
    requires style == "2" || style == "3"
    ensures var mark := if style == "2" then BULLET_MARK else HEADLINE_MARK;
      && (segment(summary) == [] ==> PostProcess(summary, style, segment) == mark)
      && (segment(summary) != [] ==> PostProcess(summary, style, segment) == Marked(segment(summary), mark))
  {
    var mark := if style == "2" then BULLET_MARK else HEADLINE_MARK;
    if segment(summary) != [] {
      JoinBehindMarker(segment(summary), mark);
    }
  }

  /**
   * With sentences free of line breaks, bullet and headline styles give one line
   * break per sentence, so each sentence is on its own line.
   */
  lemma ListStylesLineCount(summary: string, style: string, segment: string -> seq<string>)
    requires style == "2" || style == "3"
    requires segment(summary) != []
    requires forall i :: 0 <= i < |segment(summary)| ==> CountChar(segment(summary)[i], '\n') == 0
    ensures CountChar(PostProcess(summary, style, segment), '\n') == |segment(summary)|
  {
    var mark := if style == "2" then BULLET_MARK else HEADLINE_MARK;
    ListStylesMarkEverySentence(summary, style, segment);
    MarksHoldOneBreak();
    MarkedLineCount(segment(summary), mark);
  }
}
