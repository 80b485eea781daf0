/** The server-side schema of schema/server.go: message sources and targets,
    pipeline status predicates and the string-backed error type. */
module SchemaServer {
  import opened Wrappers

  /** The message target that reaches every plugin. */
  const BROADCAST_MESSAGE: string := "*"

  /** A pipeline status is a plain string. */
  type Status = string

  const STATUS_ENQUEUED: Status := "enqueued"
  const STATUS_WAITING: Status := "waiting"
  const STATUS_RUNNING: Status := "running"
  const STATUS_SUCCESS: Status := "success"
  const STATUS_FAILED: Status := "failed"
  const STATUS_TIMEOUT: Status := "timeout"

  /** The sources that are not plugins: the server itself and its API. */
  const MESSAGE_SOURCE_SERVER: string := "*server"
  const MESSAGE_SOURCE_API: string := "*api"

  /** Error: an error whose message is the string it wraps. */
  datatype Error = ErrorText(text: string)
  {
    /** The message is the wrapped string: wrapping it again gives the
        same error back. */
    function Error(): (s: string)
      ensures ErrorText(s) == this
    {
      text
    }
  }

  /** Two errors with the same message are the same error. */
  lemma ErrorInjective(e1: Error, e2: Error)
    ensures e1.Error() == e2.Error() <==> e1 == e2
  {
    assert ErrorText(e1.Error()) == e1 && ErrorText(e2.Error()) == e2;
  }

  const ERROR_UNAVAILABLE: Error := ErrorText("not available")

  /** The unavailable error reads "not available". */
  lemma UnavailableText()
    ensures ERROR_UNAVAILABLE.Error() == "not available"
  {
  }

  /** IsMessageFromPlugin: every source but the server's and the API's is a
      plugin. */
  function IsMessageFromPlugin(source: string): (r: bool)
    ensures r <==> source != MESSAGE_SOURCE_SERVER && source != MESSAGE_SOURCE_API
  {
    match source
    case "*server" => false
    case "*api" => false
    case _ => true
  }

  /** A message to a plugin, or to every plugin when the target is "*". */
  datatype Message = Message(target: string, options: map<string, string>, data: seq<byte>)

  /** BroadcastMessage: a message to every plugin, carrying the given
      options and data unchanged. */
  function BroadcastMessage(options: map<string, string>, data: seq<byte>): (m: Message)
    ensures m.target == BROADCAST_MESSAGE && m.options == options && m.data == data
  {
    Message(BROADCAST_MESSAGE, options, data)
  }

  /** The status of one pipeline run; the pipeline, its logs and its
      result are not part of this model. */
  datatype PipelineStatus = PipelineStatus(workerGroup: string, activityID: string, status: Status)
  {
    /** Running: waiting for or holding a worker. */
    predicate Running()
      ensures Running() <==> status == STATUS_WAITING || status == STATUS_RUNNING
    {
      match status
      case "waiting" => true
      case "running" => true
      case _ => false
    }

    /** Finished: succeeded, failed or timed out. */
    predicate Finished()
      ensures Finished() <==> status == STATUS_SUCCESS || status == STATUS_FAILED || status == STATUS_TIMEOUT
    {
      match status
      case "success" => true
      case "failed" => true
      case "timeout" => true
      case _ => false
    }
  }

  /** No status is both running and finished, an enqueued pipeline is
      neither, and every other named status is exactly one of the two. */
  lemma StatusesExclusive(s: PipelineStatus)
    ensures !(s.Running() && s.Finished())
    ensures s.status == STATUS_ENQUEUED ==> !s.Running() && !s.Finished()
    ensures s.status in {STATUS_WAITING, STATUS_RUNNING, STATUS_SUCCESS, STATUS_FAILED, STATUS_TIMEOUT} ==>
      s.Running() != s.Finished()
  {
  }
}
