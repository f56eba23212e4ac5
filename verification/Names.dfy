/** The member names of a request and its nested objects (src/protocol/BrokerProtocol.cpp). */
module Names {
  import opened Text
  import opened Wrappers
  import opened Json

  /** version */
  const VERSION: Wide := [0x76, 0x65, 0x72, 0x73, 0x69, 0x6F, 0x6E]
  /** requestId */
  const REQUEST_ID: Wide := [0x72, 0x65, 0x71, 0x75, 0x65, 0x73, 0x74, 0x49, 0x64]
  /** operation */
  const OPERATION: Wide := [0x6F, 0x70, 0x65, 0x72, 0x61, 0x74, 0x69, 0x6F, 0x6E]
  /** profileId */
  const PROFILE_ID: Wide := [0x70, 0x72, 0x6F, 0x66, 0x69, 0x6C, 0x65, 0x49, 0x64]
  /** mode */
  const MODE: Wide := [0x6D, 0x6F, 0x64, 0x65]
  /** arguments */
  const ARGUMENTS: Wide := [0x61, 0x72, 0x67, 0x75, 0x6D, 0x65, 0x6E, 0x74, 0x73]
  /** workingDirectory */
  const WORKING_DIRECTORY: Wide := [
    0x77, 0x6F, 0x72, 0x6B, 0x69, 0x6E, 0x67, 0x44,
    0x69, 0x72, 0x65, 0x63, 0x74, 0x6F, 0x72, 0x79]
  /** console */
  const CONSOLE: Wide := [0x63, 0x6F, 0x6E, 0x73, 0x6F, 0x6C, 0x65]
  /** interactive */
  const INTERACTIVE: Wide := [0x69, 0x6E, 0x74, 0x65, 0x72, 0x61, 0x63, 0x74, 0x69, 0x76, 0x65]
  /** force */
  const FORCE: Wide := [0x66, 0x6F, 0x72, 0x63, 0x65]
  /** restrictAccess */
  const RESTRICT_ACCESS: Wide := [0x72, 0x65, 0x73, 0x74, 0x72, 0x69, 0x63, 0x74, 0x41, 0x63, 0x63, 0x65, 0x73, 0x73]
  /** lowIntegrity */
  const LOW_INTEGRITY: Wide := [0x6C, 0x6F, 0x77, 0x49, 0x6E, 0x74, 0x65, 0x67, 0x72, 0x69, 0x74, 0x79]
  /** log */
  const LOG: Wide := [0x6C, 0x6F, 0x67]
  /** appContainer */
  const APP_CONTAINER: Wide := [0x61, 0x70, 0x70, 0x43, 0x6F, 0x6E, 0x74, 0x61, 0x69, 0x6E, 0x65, 0x72]
  /** capabilities */
  const CAPABILITIES: Wide := [0x63, 0x61, 0x70, 0x61, 0x62, 0x69, 0x6C, 0x69, 0x74, 0x69, 0x65, 0x73]
  /** pipeIn */
  const PIPE_IN: Wide := [0x70, 0x69, 0x70, 0x65, 0x49, 0x6E]
  /** pipeOut */
  const PIPE_OUT: Wide := [0x70, 0x69, 0x70, 0x65, 0x4F, 0x75, 0x74]
  /** pipeResize */
  const PIPE_RESIZE: Wide := [0x70, 0x69, 0x70, 0x65, 0x52, 0x65, 0x73, 0x69, 0x7A, 0x65]
  /** inheritCursor */
  const INHERIT_CURSOR: Wide := [0x69, 0x6E, 0x68, 0x65, 0x72, 0x69, 0x74, 0x43, 0x75, 0x72, 0x73, 0x6F, 0x72]
  /** leasePipe */
  const LEASE_PIPE: Wide := [0x6C, 0x65, 0x61, 0x73, 0x65, 0x50, 0x69, 0x70, 0x65]
  /** nonce */
  const NONCE: Wide := [0x6E, 0x6F, 0x6E, 0x63, 0x65]

  datatype Name =
    | Version | RequestId | Operation | ProfileId | Mode | Arguments | WorkingDirectory | Console
    | Interactive | Force | RestrictAccess | LowIntegrity | Log | AppContainer | Capabilities | PipeIn
    | PipeOut | PipeResize | InheritCursor | LeasePipe | Nonce

  function TextOf(name: Name): Wide {
    match name
    case Version => VERSION
    case RequestId => REQUEST_ID
    case Operation => OPERATION
    case ProfileId => PROFILE_ID
    case Mode => MODE
    case Arguments => ARGUMENTS
    case WorkingDirectory => WORKING_DIRECTORY
    case Console => CONSOLE
    case Interactive => INTERACTIVE
    case Force => FORCE
    case RestrictAccess => RESTRICT_ACCESS
    case LowIntegrity => LOW_INTEGRITY
    case Log => LOG
    case AppContainer => APP_CONTAINER
    case Capabilities => CAPABILITIES
    case PipeIn => PIPE_IN
    case PipeOut => PIPE_OUT
    case PipeResize => PIPE_RESIZE
    case InheritCursor => INHERIT_CURSOR
    case LeasePipe => LEASE_PIPE
    case Nonce => NONCE
  }

  function NameOf(text: Wide): Option<Name> {
    if text == VERSION then Some(Version)
    else if text == REQUEST_ID then Some(RequestId)
    else if text == OPERATION then Some(Operation)
    else if text == PROFILE_ID then Some(ProfileId)
    else if text == MODE then Some(Mode)
    else if text == ARGUMENTS then Some(Arguments)
    else if text == WORKING_DIRECTORY then Some(WorkingDirectory)
    else if text == CONSOLE then Some(Console)
    else if text == INTERACTIVE then Some(Interactive)
    else if text == FORCE then Some(Force)
    else if text == RESTRICT_ACCESS then Some(RestrictAccess)
    else if text == LOW_INTEGRITY then Some(LowIntegrity)
    else if text == LOG then Some(Log)
    else if text == APP_CONTAINER then Some(AppContainer)
    else if text == CAPABILITIES then Some(Capabilities)
    else if text == PIPE_IN then Some(PipeIn)
    else if text == PIPE_OUT then Some(PipeOut)
    else if text == PIPE_RESIZE then Some(PipeResize)
    else if text == INHERIT_CURSOR then Some(InheritCursor)
    else if text == LEASE_PIPE then Some(LeasePipe)
    else if text == NONCE then Some(Nonce)
    else None
  }

  lemma NameOfText(name: Name)
    ensures NameOf(TextOf(name)) == Some(name)
  {
  }

  lemma TextIsPlain(name: Name)
    ensures |TextOf(name)| <= 16 && forall i :: 0 <= i < |TextOf(name)| ==> IsPlain(TextOf(name)[i])
  {
  }
}
