/**
 * The computations of `app.py` around the pipeline: the word count of the
 * input, the summary length targets in Auto and Manual mode, and the maps from
 * the UI's labels to the codes `summarizer.py` understands.
 */
module App {
  import opened Strings
  import Summarizer
  import Chunking

  /** The options of the "Choose Model" select box. */
  const MODEL_OPTIONS: seq<string> := ["BART", "T5", "Pegasus"]
  /** `model_map`. */
  const MODEL_MAP: map<string, string> := map["BART" := "1", "T5" := "2", "Pegasus" := "3"]

  /** The options of the "Summary Style" select box. */
  const STYLE_OPTIONS: seq<string> := ["Default", "Bullet Points", "Headlines"]
  /** `style_map`. */
  const STYLE_MAP: map<string, string> := map["Default" := "1", "Bullet Points" := "2", "Headlines" := "3"]

  const CODES: set<string> := {"1", "2", "3"}

  /** A map is defined on exactly the options and sends them one-to-one onto the three codes. */
  ghost predicate LabelsToCodes(options: seq<string>, m: map<string, string>) {
    && (forall o :: o in m <==> o in options)
    && m.Values == CODES
    && (forall i, j :: 0 <= i < j < |options| ==> m[options[i]] != m[options[j]])
  }

  /** `model_map` and `style_map` cover every option of their select boxes, each with its own code. */
  lemma UiMapsAreTotalAndDistinct()
    ensures LabelsToCodes(MODEL_OPTIONS, MODEL_MAP)
    ensures LabelsToCodes(STYLE_OPTIONS, STYLE_MAP)
  {
    assert MODEL_MAP.Values == CODES by {
      assert MODEL_MAP["BART"] == "1" && MODEL_MAP["T5"] == "2" && MODEL_MAP["Pegasus"] == "3";
    }
    assert STYLE_MAP.Values == CODES by {
      assert STYLE_MAP["Default"] == "1" && STYLE_MAP["Bullet Points"] == "2" && STYLE_MAP["Headlines"] == "3";
    }
  }

  /**
   * `load_model(model_map[model_choice])`: every model the UI offers is found in
   * `MODELS` (the BART fallback is never taken from the UI), and only "T5" loads a
   * model that takes instruction prefixes.
   */
  function LoadedModel(choice: string): (name: string)
    requires choice in MODEL_MAP
    ensures MODEL_MAP[choice] in Summarizer.MODELS && name == Summarizer.MODELS[MODEL_MAP[choice]]
    ensures StartsWith(name, "t5") <==> choice == "T5"
  {
    Summarizer.OnlyChoiceTwoIsT5(MODEL_MAP[choice]);
    Summarizer.ResolveModel(MODEL_MAP[choice])
  }

  datatype LengthMode = Auto | Manual

  /** The `max_length` and `min_length` handed to `model.generate`. */
  datatype LengthSpec = LengthSpec(maxLen: int, minLen: int)

  function Max(a: int, b: int): int {
    if a >= b then a else b
  }

  /**
   * Auto mode: `max(int(word_count * 0.3), 30)` and `max(int(word_count * 0.1), 10)`,
   * with the float products replaced by integer division.
   * Each target is the larger of its floor and the whole-number part of its share.
   */
  function AutoTargets(wordCount: nat): (spec: LengthSpec)
    ensures spec.maxLen >= 30 && 10 * spec.maxLen <= Max(3 * wordCount, 300) < 10 * spec.maxLen + 10
    ensures spec.minLen >= 10 && 10 * spec.minLen <= Max(wordCount, 100) < 10 * spec.minLen + 10
  {
    LengthSpec(Max(wordCount * 3 / 10, 30), Max(wordCount / 10, 10))
  }

  /** Auto targets never cross: the minimum stays at or below the maximum. */
  lemma AutoTargetsOrdered(wordCount: nat)
    ensures AutoTargets(wordCount).minLen <= AutoTargets(wordCount).maxLen
  {
  }

  /** The floors rule up to 100 words; 200 words give 60 and 20. */
  lemma AutoTargetsExamples(wordCount: nat)
    ensures wordCount <= 100 ==> AutoTargets(wordCount) == LengthSpec(30, 10)
    ensures AutoTargets(200) == LengthSpec(60, 20)
  {
  }

  /** Longer inputs never get shorter targets. */
  lemma AutoTargetsMonotone(w1: nat, w2: nat)
    requires w1 <= w2
    ensures AutoTargets(w1).maxLen <= AutoTargets(w2).maxLen
    ensures AutoTargets(w1).minLen <= AutoTargets(w2).minLen
  {
  }

  /** What the Manual sliders allow: `max_len` in 50..512, `min_len` in 10..`max_len`. */
  predicate SlidersAllow(maxLen: int, minLen: int)
    ensures SlidersAllow(maxLen, minLen) ==> 10 <= minLen <= 512
  {
    50 <= maxLen <= 512 && 10 <= minLen <= maxLen
  }

  /** For every Max Length, both ends of the Min Length slider, 10 and `max_len`, are allowed. */
  lemma MinSliderEnds(maxLen: int)
    requires 50 <= maxLen <= 512
    ensures SlidersAllow(maxLen, 10) && SlidersAllow(maxLen, maxLen)
  {
  }

  /** The slider defaults, 130 and 30. */
  const MANUAL_DEFAULT := LengthSpec(130, 30)

  /**
   * The targets in either mode. The sliders' bounds are the widget's, so a
   * Manual value outside them cannot arrive.
   */
  function LengthTargets(mode: LengthMode, wordCount: nat, sliders: LengthSpec): (spec: LengthSpec)
    requires mode == Manual ==> SlidersAllow(sliders.maxLen, sliders.minLen)
    ensures 10 <= spec.minLen <= spec.maxLen && spec.maxLen >= 30
    ensures mode == Manual ==> spec == sliders && spec.maxLen <= 512
    ensures mode == Auto ==> spec == AutoTargets(wordCount)
  {
    if mode == Manual then sliders else AutoTargets(wordCount)
  }

  /**
   * The slider defaults are within the sliders' bounds, and the Min Length
   * default stays allowed whatever Max Length the first slider is moved to,
   * although the second slider's upper bound follows it.
   */
  lemma ManualDefaultAllowed(maxLen: int)
    requires 50 <= maxLen <= 512
    ensures SlidersAllow(MANUAL_DEFAULT.maxLen, MANUAL_DEFAULT.minLen)
    ensures SlidersAllow(maxLen, MANUAL_DEFAULT.minLen)
  {
  }

  /**
   * `[apply_style_prompt(chunk, style_map[style], model_name) for chunk in chunks]`:
   * one prompt per chunk, in chunk order, each ending with its chunk; for a model
   * that is not T5 the chunks pass through unchanged.
   */
  function StyledChunks(chunks: seq<string>, styleCode: string, modelName: string): (styled: seq<string>)
    ensures |styled| == |chunks|
    ensures forall i :: 0 <= i < |chunks| ==> styled[i] == Summarizer.ApplyStylePrompt(chunks[i], styleCode, modelName)
    ensures forall i :: 0 <= i < |chunks| ==>
      |chunks[i]| <= |styled[i]| && styled[i][|styled[i]| - |chunks[i]|..] == chunks[i]
    ensures !StartsWith(modelName, "t5") ==> styled == chunks
  {
    seq(|chunks|, i requires 0 <= i < |chunks| => Summarizer.ApplyStylePrompt(chunks[i], styleCode, modelName))
  }

  /**
   * Lines 85-86 of the app: the sentences of the input are chunked with
   * `max_words = 500` and the default `overlap = 50`, then styled for the chosen model.
   */
  function PreparedChunks(sentences: seq<string>, style: string, choice: string): (styled: seq<string>)
    requires style in STYLE_MAP && choice in MODEL_MAP
    ensures |styled| == |Chunking.Chunks(sentences, 500, 50)|
    ensures styled == StyledChunks(Chunking.Chunks(sentences, 500, 50), STYLE_MAP[style], LoadedModel(choice))
    ensures choice != "T5" ==> styled == Chunking.Chunks(sentences, 500, 50)
  {
    StyledChunks(Chunking.Chunks(sentences, 500, 50), STYLE_MAP[style], LoadedModel(choice))
  }
}
