/** The texts of the source, and that they are as seeding needs them. */
module SeedWording {
  import opened Ids
  import opened Seeding
  import opened SeedingLaws

  function DirectName(modelId: string, effort: Option<string>): string {
    "OpenCode Go direct model: " + modelId + if effort.None? then "" else " / " + effort.value
  }

  function DirectDescription(modelId: string, effort: Option<string>): string {
    "Calls the OpenCode Go OpenAI-compatible API directly with model " + modelId +
    if effort.None? then " and no explicit reasoning effort." else " and reasoning effort " + effort.value + "."
  }

  function WorkspaceName(modelId: string): string {
    "OpenCode workspace model: " + modelId
  }

  function WorkspaceDescription(modelId: string): string {
    "References the OpenCode binary workspace path for model " + modelId +
    ". This is not used by direct API benchmarks."
  }

  const SOURCE: Wording := Wording(
    "opencode-go", ["opencode-go", "model", "direct-model"], ["opencode-go", "model", "workspace-model"],
    (m, e) => DirectName(m, e), (m, e) => DirectDescription(m, e), m => WorkspaceName(m), m => WorkspaceDescription(m),
    "Magic provider: do nothing",
    "A built-in no-op provider that returns an empty task result without calling an LLM.",
    "MagicDoNothing", "magic:do-nothing", ["magic-provider", "do-nothing", "silent"])

  lemma NamesDiffer(m: string, e: Option<string>, n: string)
    ensures DirectName(m, e) != WorkspaceName(n)
  {
    assert DirectName(m, e)[9] == 'G';
    assert WorkspaceName(n)[9] == 'w';
  }

  lemma MagicNameDiffers(m: string, e: Option<string>)
    ensures DirectName(m, e) != SOURCE.magicName && WorkspaceName(m) != SOURCE.magicName
  {
    assert DirectName(m, e)[0] == 'O' && WorkspaceName(m)[0] == 'O' && SOURCE.magicName[0] == 'M';
  }

  lemma TagsDiffer()
    ensures "opencode-go" !in ["magic-provider", "do-nothing", "silent"]
    ensures CleanTags(["magic-provider", "do-nothing", "silent"])
  {
    assert "opencode-go"[0] == 'o' && "magic-provider"[0] == 'm' && "do-nothing"[0] == 'd' && "silent"[0] == 's';
    assert "magic-provider"[13] == 'r' && "do-nothing"[9] == 'g' && "silent"[5] == 't';
  }

  /** The texts of the source meet every condition that the fixpoint puts on them. */
  lemma SourceWordingOk()
    ensures WordingOk(SOURCE)
  {
    TagsDiffer();
    assert "opencode-go"[0] == 'o' && "opencode-go"[10] == 'o';
    assert "magic:do-nothing"[0] == 'm' && "magic:do-nothing"[15] == 'g';
    assert SOURCE.directTags[0] == SOURCE.family;
    forall m, e, n
      ensures SOURCE.directName(m, e) != SOURCE.workspaceName(n)
    {
      NamesDiffer(m, e, n);
    }
    forall m, e
      ensures SOURCE.directName(m, e) != SOURCE.magicName
    {
      MagicNameDiffers(m, e);
    }
    forall m
      ensures SOURCE.workspaceName(m) != SOURCE.magicName
    {
      MagicNameDiffers(m, None);
    }
  }
}
