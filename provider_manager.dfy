/** The provider layer's registry: the two coding CLIs a thread can run, the
  * factory that picks one by its type name, and the table that binds each
  * thread to the provider reading its pane. */
module ProviderManager {
  import opened Text
  import opened Terminal
  import CodexProvider
  import ClaudeProvider

  /** The providers there are; neither carries any state of its own. */
  datatype Provider = Codex | ClaudeCode

  /** The identifier a provider reports, the same string it is created by. */
  function Name(p: Provider): (r: string)
    ensures r == "codex" || r == "claude_code"
  {
    match p
    case Codex => "codex"
    case ClaudeCode => "claude_code"
  }

  /** Both CLIs leave on `/exit`. */
  function ExitCommand(p: Provider): (r: string)
    ensures r == "/exit"
  {
    "/exit"
  }

  /** The pattern a pane log's tail is matched against to see an idle CLI
    * without capturing the pane: the Codex prompt markers at the end of a
    * line, or `>` and a white space for Claude Code. */
  function IdlePatternForLog(p: Provider): (r: string)
    ensures r != ""
  {
    match p
    case Codex => "(?:❯|›|codex>)\\s*$"
    case ClaudeCode => ">\\s"
  }

  /** The status a provider reads off the captured pane text. */
  function GetStatus(p: Provider, output: string): Status {
    match p
    case Codex => CodexProvider.GetStatus(output)
    case ClaudeCode => ClaudeProvider.GetStatus(output)
  }

  /** The last answer a provider reads off the captured pane text. */
  method ExtractLastResponse(p: Provider, output: string) returns (r: string)
    ensures p == Codex ==>
              r == TrimSpace(Join(CodexProvider.Response(CodexProvider.TrimLines(Lines(StripSgr(output))),
                                                         CodexProvider.PromptSkipping), "\n"))
    ensures p == ClaudeCode && ClaudeProvider.AfterLastMarker(output).None? ==> r == ""
    ensures p == ClaudeCode && ClaudeProvider.AfterLastMarker(output).Some? ==>
              r == StripSgr(TrimSpace(Join(ClaudeProvider.UntilStop(Lines(ClaudeProvider.AfterLastMarker(output).value),
                                                                    ClaudeProvider.IsStopLine), "\n")))
  {
    match p
    case Codex => r := CodexProvider.ExtractLastResponse(output);
    case ClaudeCode => r := ClaudeProvider.ExtractLastResponse(output);
  }

  /** `NewByType`: a provider for the two known type names, an error naming
    * the type for any other. */
  function NewByType(providerType: string): (r: Result<Provider>)
    ensures r.Ok? <==> providerType == "codex" || providerType == "claude_code"
    ensures r.Ok? ==> Name(r.value) == providerType
    ensures r.Err? ==> r.msg == "unknown provider type: " + providerType
  {
    if providerType == "codex" then Ok(Codex)
    else if providerType == "claude_code" then Ok(ClaudeCode)
    else Err("unknown provider type: " + providerType)
  }

  /** A provider's name creates that same provider again, so names and
    * providers are in one-to-one correspondence. */
  lemma NewByTypeOfName(p: Provider)
    ensures NewByType(Name(p)) == Ok(p)
  {
    match p
    case Codex =>
    case ClaudeCode =>
      assert Name(p) != "codex" by { assert Name(p)[0] == 'c' && Name(p)[1] == 'l'; }
  }

  /** `Manager`: the provider bound to each thread id. */
  class Manager {
    var providers: map<int, Provider>

    /** `NewManager`: no thread has a provider yet. */
    constructor ()
      ensures providers == map[]
    {
      providers := map[];
    }

    /** `Register`: binds `p` to the thread, replacing any earlier binding. */
    method Register(threadId: int, p: Provider)
      modifies this
      ensures providers == old(providers)[threadId := p]
    {
      providers := providers[threadId := p];
    }

    /** `Get`: the thread's provider, none when it has no binding. */
    function Get(threadId: int): (r: Option<Provider>)
      reads this
      ensures r.Some? <==> threadId in providers
      ensures r.Some? ==> providers[threadId] == r.value
    {
      if threadId in providers then Some(providers[threadId]) else None
    }

    /** `Remove`: drops the thread's binding; removing an absent one changes
      * nothing. */
    method Remove(threadId: int)
      modifies this
      ensures providers == old(providers) - {threadId}
      ensures Get(threadId).None?
      ensures forall t :: t != threadId ==> Get(t) == old(Get(t))
    {
      providers := providers - {threadId};
    }

    /** `Create`: makes a provider of the named type and binds it to the
      * thread; an unknown type leaves every binding as it was. */
    method Create(threadId: int, providerType: string) returns (r: Result<Provider>)
      modifies this
      ensures r == NewByType(providerType)
      ensures r.Ok? ==> providers == old(providers)[threadId := r.value] && Get(threadId) == Some(r.value)
      ensures r.Err? ==> providers == old(providers)
    {
      r := NewByType(providerType);
      if r.Err? {
        return;
      }
      Register(threadId, r.value);
    }
  }
}
