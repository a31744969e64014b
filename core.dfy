/** The raw LLM generator of the pipeline (generator/core.py,
    `RawReviewGenerator`): the provider check of its constructor, the prompt
    fields, and the steps `generate` applies to the model's reply. The API
    clients, the environment and `json.loads` are parameters. */
module Core {
  import opened Wrappers
  import opened Types
  import Text
  import Persona

  /** A configured generator: `provider`, `model` and `temperature`. */
  datatype RawReviewGenerator = RawReviewGenerator(provider: string, model: string, temperature: real)

  /** The `model_config` dictionary; `temperature` may be absent. */
  datatype ModelConfig = ModelConfig(provider: string, model: string, temperature: Option<real>)

  /** The two API keys as `os.getenv` returns them. */
  datatype Env = Env(openaiKey: Option<string>, anthropicKey: Option<string>)

  /** `not api_key`: the key is unset or empty. */
  predicate KeyMissing(key: Option<string>) {
    key.None? || key.value == ""
  }

  /** `__init__`: an unknown provider, or a known one whose key is missing,
      raises `ValueError`. */
  function NewGenerator(config: ModelConfig, env: Env): Result<RawReviewGenerator, string> {
    var g := RawReviewGenerator(config.provider, config.model, config.temperature.GetOr(0.8));
    if config.provider == "openai" then
      if KeyMissing(env.openaiKey) then Err("OPENAI_API_KEY not found") else Ok(g)
    else if config.provider == "anthropic" then
      if KeyMissing(env.anthropicKey) then Err("ANTHROPIC_API_KEY not found") else Ok(g)
    else Err("Unknown provider: " + config.provider)
  }

  /** Construction succeeds exactly for a known provider whose key is set;
      the generator then carries the configured provider and model, and a
      temperature of 0.8 unless one is configured. */
  lemma ConstructionSucceeds(config: ModelConfig, env: Env)
    ensures NewGenerator(config, env).Ok? <==>
      (config.provider == "openai" && !KeyMissing(env.openaiKey)) ||
      (config.provider == "anthropic" && !KeyMissing(env.anthropicKey))
    ensures NewGenerator(config, env).Ok? ==>
      var g := NewGenerator(config, env).value;
      g.provider == config.provider && g.model == config.model &&
      (config.temperature.None? ==> g.temperature == 0.8)
    ensures config.provider != "openai" && config.provider != "anthropic" ==>
      NewGenerator(config, env) == Err("Unknown provider: " + config.provider)
  {
  }

  /** A persona from the configuration; `keywords` may be absent. */
  datatype PersonaConfig = PersonaConfig(ptype: string, description: string, keywords: Option<seq<string>>)

  /** `persona.get('keywords', [])` */
  function KeywordsOf(persona: PersonaConfig): seq<string> {
    persona.keywords.GetOr([])
  }

  /** The variable parts of the prompt `_build_prompt` writes: who the
      review is from, the rating, the perspective and the terms to include.
      The fixed wording around them is not modelled. */
  datatype PromptFields = PromptFields(audience: string, rating: real, perspective: string, terms: string)

  function BuildPrompt(persona: PersonaConfig, rating: real): PromptFields {
    PromptFields(Text.ReplaceChar(persona.ptype, '_', ' '), rating, persona.description,
      Text.Join(KeywordsOf(persona), ", "))
  }

  /** Every persona keyword occurs in the prompt's list of terms, and the
      persona type is shown with each '_' as a space and nothing else
      changed. */
  lemma PromptShowsPersona(persona: PersonaConfig, rating: real, k: nat)
    ensures k < |KeywordsOf(persona)| ==> Text.Contains(BuildPrompt(persona, rating).terms, KeywordsOf(persona)[k])
    ensures var a := BuildPrompt(persona, rating).audience;
      && |a| == |persona.ptype|
      && (forall i :: 0 <= i < |a| ==> a[i] != '_')
      && (forall i :: 0 <= i < |a| && persona.ptype[i] != '_' ==> a[i] == persona.ptype[i])
  {
    if k < |KeywordsOf(persona)| {
      Text.JoinContains(KeywordsOf(persona), ", ", k);
    }
  }

  predicate IsBacktick(c: char) {
    c == '`'
  }

  /** The markdown clean-up of the reply: a text that starts with three
      backticks loses its surrounding backticks and then, if it starts with
      "json", those four letters and the whitespace around the rest. */
  function Unfenced(text: string): string {
    if !Text.StartsWith(text, "```") then text
    else
      var t := Text.Strip(text, IsBacktick);
      if Text.StartsWith(t, "json") then Text.StripSpace(t[4..]) else t
  }

  /** The clean-up step by step, as `generate` reassigns `text`. */
  method CleanFence(text: string) returns (t: string)
    ensures t == Unfenced(text)
  {
    t := text;
    if Text.StartsWith(t, "```") {
      t := Text.Strip(t, IsBacktick);
      if Text.StartsWith(t, "json") {
        t := Text.StripSpace(t[4..]);
      }
    }
  }

  /** A text that does not start with three backticks is left unchanged. */
  lemma UnfencedPlain(text: string)
    requires !Text.StartsWith(text, "```")
    ensures Unfenced(text) == text
  {
  }

  /** A body fenced as "```json" + newline ... newline + "```" comes back
      out, provided it neither starts nor ends with whitespace. */
  lemma UnfencedJsonBlock(body: string)
    requires body != [] && !Text.IsSpace(body[0]) && !Text.IsSpace(body[|body| - 1])
    ensures Unfenced("```json\n" + body + "\n```") == body
  {
    BackticksOff(body);
    JsonTagOff(body);
  }

  /** The backticks of a json fence strip off, leaving "json" and the
      newline-padded body. */
  lemma BackticksOff(body: string)
    ensures var text := "```json\n" + body + "\n```";
      Text.StartsWith(text, "```") && Text.Strip(text, IsBacktick) == "json" + ("\n" + body + "\n")
  {
    var inner := "json" + ("\n" + body + "\n");
    assert "```json\n" + body + "\n```" == "```" + inner + "```";
    Text.PrefixOfConcat("```", inner + "```");
    assert "```" + inner + "```" == "```" + (inner + "```");
    Text.StripOfPadded("```", inner, "```", IsBacktick);
  }

  /** Dropping "json" and stripping the newlines leaves the body. */
  lemma JsonTagOff(body: string)
    requires body != [] && !Text.IsSpace(body[0]) && !Text.IsSpace(body[|body| - 1])
    ensures var inner := "json" + ("\n" + body + "\n");
      Text.StartsWith(inner, "json") && Text.StripSpace(inner[4..]) == body
  {
    Text.PrefixOfConcat("json", "\n" + body + "\n");
    Text.StripOfPadded("\n", body, "\n", Text.IsSpace);
  }

  /** A body fenced by bare "```" comes back out, provided it neither starts
      nor ends with a backtick and does not start with "json". */
  lemma UnfencedBareBlock(body: string)
    requires body != [] && !IsBacktick(body[0]) && !IsBacktick(body[|body| - 1])
    requires !Text.StartsWith(body, "json")
    ensures Unfenced("```" + body + "```") == body
  {
    var text := "```" + body + "```";
    assert Text.StartsWith(text, "```") by { assert text[..3] == "```"; }
    Text.StripOfPadded("```", body, "```", IsBacktick);
  }

  /** `f"{title}. Pros: {pros} Cons: {cons}"` */
  function ReviewText(title: string, pros: string, cons: string): string {
    title + ". Pros: " + pros + " Cons: " + cons
  }

  /** The three parts sit at fixed offsets of the review text, so they can
      be read back given their lengths. */
  lemma ReviewTextParts(title: string, pros: string, cons: string)
    ensures var s := ReviewText(title, pros, cons);
      && |s| == |title| + |pros| + |cons| + 15
      && Text.OccursAt(s, title, 0)
      && Text.OccursAt(s, pros, |title| + 8)
      && Text.OccursAt(s, cons, |title| + 8 + |pros| + 7)
  {
    var s := ReviewText(title, pros, cons);
    var p := |title| + 8;
    var c := p + |pros| + 7;
    assert s == title + (". Pros: " + (pros + (" Cons: " + cons)));
    assert s[..|title|] == title;
    assert s[p..p + |pros|] == pros;
    assert s[c..] == cons;
  }

  /** The persona keywords that occur case-insensitively in the text, in
      order and in their original case. */
  function Matching(text: string, keywords: seq<string>): (m: seq<string>)
    ensures |m| <= |keywords|
    ensures forall k :: k in m ==> k in keywords && Persona.Hit(text, k)
  {
    if |keywords| == 0 then []
    else
      var last := keywords[|keywords| - 1];
      Matching(text, keywords[..|keywords| - 1]) + (if Persona.Hit(text, last) then [last] else [])
  }

  /** The filter keeps every occurring keyword and only those, in config
      order: the kept list is the subsequence of `keywords` at exactly the
      positions whose keyword occurs in the text, in increasing order. */
  lemma MatchingKeepsOrder(text: string, keywords: seq<string>)
    ensures exists idx: seq<nat> ::
      && |idx| == |Matching(text, keywords)|
      && (forall p, q :: 0 <= p < q < |idx| ==> idx[p] < idx[q])
      && (forall p :: 0 <= p < |idx| ==> idx[p] < |keywords| && Matching(text, keywords)[p] == keywords[idx[p]])
      && (forall i :: 0 <= i < |keywords| ==> (Persona.Hit(text, keywords[i]) <==> i in idx))
  {
    var idx := HitPositions(text, keywords);
  }

  /** `idx` lists, in increasing order, exactly the positions of the
      keywords occurring in `text`, and `m` is the keywords there. */
  ghost predicate HitsAt(text: string, keywords: seq<string>, m: seq<string>, idx: seq<nat>)
  {
    && |idx| == |m|
    && (forall p, q :: 0 <= p < q < |idx| ==> idx[p] < idx[q])
    && (forall p :: 0 <= p < |idx| ==> idx[p] < |keywords| && m[p] == keywords[idx[p]])
    && (forall i :: 0 <= i < |keywords| ==> (Persona.Hit(text, keywords[i]) <==> i in idx))
  }

  /** The positions the kept keywords are taken from. */
  lemma {:induction false} HitPositions(text: string, keywords: seq<string>) returns (idx: seq<nat>)
    ensures HitsAt(text, keywords, Matching(text, keywords), idx)
  {
    if |keywords| == 0 {
      idx := [];
    } else {
      var prev := HitPositions(text, keywords[..|keywords| - 1]);
      idx := HitsStep(text, keywords, prev);
    }
  }

  /** One more keyword extends the positions by its own when it occurs. */
  lemma HitsStep(text: string, keywords: seq<string>, prev: seq<nat>) returns (idx: seq<nat>)
    requires |keywords| > 0
    requires HitsAt(text, keywords[..|keywords| - 1], Matching(text, keywords[..|keywords| - 1]), prev)
    ensures HitsAt(text, keywords, Matching(text, keywords), idx)
  {
    var n := |keywords| - 1;
    var init := keywords[..n];
    var m0 := Matching(text, init);
    var last := keywords[n];
    assert Matching(text, keywords) == m0 + (if Persona.Hit(text, last) then [last] else []);
    forall i | 0 <= i < n
      ensures init[i] == keywords[i]
    {
    }
    if Persona.Hit(text, last) {
      idx := prev + [n];
      var m := m0 + [last];
      forall p | 0 <= p < |idx|
        ensures idx[p] < |keywords| && m[p] == keywords[idx[p]]
      {
        if p < |prev| {
          assert idx[p] == prev[p] && m[p] == m0[p];
        }
      }
    } else {
      idx := prev;
      assert Matching(text, keywords) == m0;
    }
  }

  /** The keyword filter of `generate`: one pass over the keywords,
      appending each one found in the lower-cased review text. */
  method MatchedKeywords(reviewText: string, keywords: seq<string>) returns (matched: seq<string>)
    ensures matched == Matching(reviewText, keywords)
  {
    matched := [];
    var reviewLower := Text.Lower(reviewText);
    for i := 0 to |keywords|
      invariant matched == Matching(reviewText, keywords[..i])
    {
      assert keywords[..i + 1][..i] == keywords[..i];
      if Text.Contains(reviewLower, Text.Lower(keywords[i])) {
        matched := matched + [keywords[i]];
      }
    }
    assert keywords[..|keywords|] == keywords;
  }

  /** A keyword is kept iff it occurs; so the filter keeps as many keywords
      as the persona gate counts. */
  lemma {:induction false} MatchingCount(text: string, keywords: seq<string>)
    ensures |Matching(text, keywords)| == Persona.Matches(text, keywords)
  {
    if |keywords| > 0 {
      MatchingCount(text, keywords[..|keywords| - 1]);
    }
  }

  /** Every kept keyword occurs, so the persona gate counts all of them. */
  lemma {:induction false} MatchingAllHit(text: string, keywords: seq<string>)
    ensures Persona.Matches(text, Matching(text, keywords)) == |Matching(text, keywords)|
  {
    if |keywords| > 0 {
      var n := |keywords| - 1;
      var prev := Matching(text, keywords[..n]);
      MatchingAllHit(text, keywords[..n]);
      if Persona.Hit(text, keywords[n]) {
        Persona.MatchesAppend(text, prev, [keywords[n]]);
        assert [keywords[n]][..0] == [];
      } else {
        assert prev + [] == prev;
      }
    }
  }

  /** For a review from this generator the persona gate sees only the
      matched keywords: it passes when none matched at all (an empty list
      passes) or when at least `minMatches` did, and scores their number. */
  lemma PersonaGateOnMatched(text: string, keywords: seq<string>, minMatches: int)
    ensures var m := Matching(text, keywords);
      Persona.Check(text, m, minMatches) ==
        GateResult(|m| == 0 || |m| >= minMatches, |m| as real)
  {
    MatchingAllHit(text, keywords);
  }

  /** The fields `json.loads` yields for a well-formed reply. */
  datatype Parsed = Parsed(title: string, pros: string, cons: string)

  /** The review `generate` builds from a parsed reply. */
  function ReviewOf(g: RawReviewGenerator, persona: PersonaConfig, rating: real, data: Parsed): Review {
    var text := ReviewText(data.title, data.pros, data.cons);
    Review(rating, text, data.title, data.pros, data.cons, g.provider + "/" + g.model,
      Some(g.provider), Some(persona.ptype), Some(Matching(text, KeywordsOf(persona))))
  }

  /** `generate`: the reply is the model's answer to the prompt (None when
      the API call raises), `parse` stands for `json.loads` and the reads of
      its three keys (None when any of them raises), and `duration` is the
      measured call time. Any failure becomes a `ValueError`, including a
      provider other than the two known ones: neither call branch runs, the
      reply is never bound, and reading it raises. */
  method Generate(g: RawReviewGenerator, persona: PersonaConfig, rating: real,
                  reply: PromptFields -> Option<string>, parse: string -> Option<Parsed>, duration: real)
    returns (r: Result<(Review, real), string>)
    ensures g.provider != "openai" && g.provider != "anthropic" ==> r.Err?
    ensures (g.provider == "openai" || g.provider == "anthropic") && reply(BuildPrompt(persona, rating)).None? ==> r.Err?
    ensures (g.provider == "openai" || g.provider == "anthropic") && reply(BuildPrompt(persona, rating)).Some? ==>
      var text := Unfenced(Text.StripSpace(reply(BuildPrompt(persona, rating)).value));
      match parse(text)
      case None => r.Err?
      case Some(data) => r == Ok((ReviewOf(g, persona, rating, data), duration))
  {
    var prompt := BuildPrompt(persona, rating);
    if g.provider != "openai" && g.provider != "anthropic" {
      return Err("Generation failed");
    }
    var answer := reply(prompt);
    if answer.None? {
      return Err("Generation failed");
    }
    var text := Text.StripSpace(answer.value);
    text := CleanFence(text);
    var data := parse(text);
    if data.None? {
      return Err("Generation failed");
    }
    var reviewText := ReviewText(data.value.title, data.value.pros, data.value.cons);
    var matched := MatchedKeywords(reviewText, KeywordsOf(persona));
    var review := Review(rating, reviewText, data.value.title, data.value.pros, data.value.cons,
      g.provider + "/" + g.model, Some(g.provider), Some(persona.ptype), Some(matched));
    return Ok((review, duration));
  }

  /** The review passes the rating through, prefixes the model with the
      provider, and lists only matched keywords. */
  lemma ReviewOfFields(g: RawReviewGenerator, persona: PersonaConfig, rating: real, data: Parsed)
    ensures var r := ReviewOf(g, persona, rating, data);
      && r.rating == rating
      && Text.StartsWith(r.model, g.provider + "/")
      && r.provider == Some(g.provider)
      && (forall k :: k in r.personaKeywords.value ==> k in KeywordsOf(persona) && Persona.Hit(r.reviewText, k))
  {
    var m := g.provider + "/" + g.model;
    assert m[..|g.provider + "/"|] == g.provider + "/";
  }
}
