/** The cancellation object shared by everyone who holds a token: a flag and one hook slot. */
module Cancel {
  import opened Wrappers

  /** Hooks are numbered in the order they are offered. */
  datatype Token = Token(cancelled: bool, slot: Option<nat>)

  datatype Registration = Installed | Occupied | Late

  function Offer(token: Token, hook: nat): (Token, Registration) {
    if token.cancelled then (token, Late)
    else if token.slot.Some? then (token, Occupied)
    else (token.(slot := Some(hook)), Installed)
  }

  /** The critical sections of the shared cancellation object. */
  class Cancellation {
    var cancelled: bool
    var resource: Option<nat>

    function Value(): Token
      reads this
    {
      Token(cancelled, resource)
    }

    constructor ()
      ensures Value() == Token(false, None)
    {
      cancelled, resource := false, None;
    }

    method Register(hook: nat) returns (registration: Registration)
      modifies this
      ensures (Value(), registration) == Offer(old(Value()), hook)
    {
      if cancelled {
        return Late;
      }
      if resource.Some? {
        return Occupied;
      }
      resource := Some(hook);
      return Installed;
    }

    method Clear()
      modifies this
      ensures Value() == old(Value()).(slot := None)
    {
      resource := None;
    }

    /** Marks the token cancelled and detaches the hook in one section, so it can never be handed out twice. */
    method Detach() returns (hook: Option<nat>)
      modifies this
      ensures Value() == Token(true, None) && hook == old(Value()).slot
    {
      cancelled := true;
      hook := resource;
      resource := None;
    }
  }
}
