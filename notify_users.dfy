/** PushNotifications::NotifyUsers: one push message per token, sent best-effort.
    The push service is an oracle: `transport(m)` is true when the send of `m` returns,
    whatever the push service answered, and false when it raises, which the service
    catches and counts. */
module NotifyUsers {

  datatype Notification = Notification(title: string, body: string)

  /** The payload handed to the push service. */
  datatype Message = Message(token: string, notification: Notification)

  type Transport = Message -> bool

  /** The messages of one batch: one per token, in token order, all with the same text. */
  function Messages(tokens: seq<string>, title: string, body: string): seq<Message> {
    seq(|tokens|, i requires 0 <= i < |tokens| => Message(tokens[i], Notification(title, body)))
  }

  /** How many sends of `ms` return. */
  function CountAccepted(ms: seq<Message>, transport: Transport): (n: nat)
    ensures n <= |ms|
  {
    if ms == [] then 0
    else CountAccepted(ms[..|ms| - 1], transport) + (if transport(ms[|ms| - 1]) then 1 else 0)
  }

  /** How many of `ms` the push service refuses. */
  function CountRejected(ms: seq<Message>, transport: Transport): (n: nat)
    ensures n <= |ms|
  {
    if ms == [] then 0
    else CountRejected(ms[..|ms| - 1], transport) + (if transport(ms[|ms| - 1]) then 0 else 1)
  }

  /** Every message is either accepted or refused. */
  lemma {:induction false} AcceptedPlusRejected(ms: seq<Message>, transport: Transport)
    ensures CountAccepted(ms, transport) + CountRejected(ms, transport) == |ms|
  {
    if ms != [] {
      AcceptedPlusRejected(ms[..|ms| - 1], transport);
    }
  }

  /** `send_notifications_to_tokens`: attempts every token once, in order, whatever
      happened to the earlier ones, and counts the outcomes. */
  method SendNotificationsToTokens(tokens: seq<string>, title: string, body: string, transport: Transport)
    returns (successCount: nat, errorCount: nat, attempts: seq<Message>)
    ensures |attempts| == |tokens|
    ensures forall i :: 0 <= i < |tokens| ==> attempts[i] == Message(tokens[i], Notification(title, body))
    ensures successCount == CountAccepted(attempts, transport)
    ensures errorCount == CountRejected(attempts, transport)
    ensures successCount + errorCount == |tokens|
  {
    successCount, errorCount, attempts := 0, 0, [];
    var i := 0;
    while i < |tokens|
      invariant 0 <= i <= |tokens|
      invariant attempts == Messages(tokens[..i], title, body)
      invariant successCount == CountAccepted(attempts, transport)
      invariant errorCount == CountRejected(attempts, transport)
    {
      var message := Message(tokens[i], Notification(title, body));
      var success, error := ProcessSingleNotification(message, transport);
      assert (attempts + [message])[..|attempts|] == attempts;
      attempts := attempts + [message];
      successCount, errorCount := successCount + success, errorCount + error;
      i := i + 1;
    }
    assert tokens[..i] == tokens;
    AcceptedPlusRejected(attempts, transport);
  }

  /** `process_single_notification`: [1, 0] when the send returns, [0, 1] when it raises. */
  method ProcessSingleNotification(message: Message, transport: Transport) returns (success: nat, error: nat)
    ensures success + error == 1
    ensures success == 1 <==> transport(message)
  {
    if transport(message) {
      success, error := 1, 0;
    } else {
      success, error := 0, 1;
    }
  }
}
