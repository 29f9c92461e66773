/** The event descriptors of `src/event.mjs`: `Event` and its subclasses,
    flattened into one class tagged by its kind. The dispatcher reads the
    `stopped` and `bubbling` flags; listeners change them through
    `CancelEvent` and `StopBubbling`. */
module Events {
  import opened Store

  /** Which class of the descriptor hierarchy an object was built as. */
  datatype Kind =
    | PlainEvent
    | GenericEmitterEvent
    | NewListener
    | RemoveListener
    | AddChild
    | RemoveChild
    | AddParent
    | RemoveParent
  {
    predicate IsListenerEvent() { NewListener? || RemoveListener? }
    predicate IsHierarchyEvent() { AddChild? || RemoveChild? || AddParent? || RemoveParent? }
  }

  class Event {
    const kind: Kind
    var stopped: bool
    var bubbling: bool
    const target: Option<Ref>
    const listener: Option<Ref>
    const parent: Option<Ref>
    const child: Option<Ref>

    /** `new Event({bubbling, target})`: not stopped, bubbling unless told otherwise. */
    constructor (bubbling: Option<bool>, target: Option<Ref>)
      ensures kind == PlainEvent && !stopped
      ensures this.bubbling == bubbling.GetOr(true) && this.target == target
      ensures listener == None && parent == None && child == None
    {
      kind := PlainEvent;
      this.bubbling := bubbling.GetOr(true);
      this.target := target;
      stopped := false;
      listener, parent, child := None, None, None;
    }

    /** `new EmitterEvent({bubbling, target})`: the same, but the bubbling
        default is false. */
    constructor Emitter(bubbling: Option<bool>, target: Option<Ref>)
      ensures kind == GenericEmitterEvent && !stopped
      ensures this.bubbling == bubbling.GetOr(false) && this.target == target
      ensures listener == None && parent == None && child == None
    {
      kind := GenericEmitterEvent;
      this.bubbling := bubbling.GetOr(false);
      this.target := target;
      stopped := false;
      listener, parent, child := None, None, None;
    }

    /** `new NewListenerEvent({...})` / `new RemoveListenerEvent({...})`:
        an emitter event carrying the listener it is about. */
    constructor ListenerEvent(kind: Kind, bubbling: Option<bool>, target: Option<Ref>, listener: Option<Ref>)
      requires kind.IsListenerEvent()
      ensures this.kind == kind && !stopped
      ensures this.bubbling == bubbling.GetOr(false) && this.target == target
      ensures this.listener == listener && parent == None && child == None
    {
      this.kind := kind;
      this.bubbling := bubbling.GetOr(false);
      this.target := target;
      stopped := false;
      this.listener := listener;
      parent, child := None, None;
    }

    /** `new AddChildEvent({...})` and the three other hierarchy events:
        an emitter event carrying the parent and the child of the edge. */
    constructor HierarchyEvent(kind: Kind, bubbling: Option<bool>, target: Option<Ref>, parent: Option<Ref>, child: Option<Ref>)
      requires kind.IsHierarchyEvent()
      ensures this.kind == kind && !stopped
      ensures this.bubbling == bubbling.GetOr(false) && this.target == target
      ensures listener == None && this.parent == parent && this.child == child
    {
      this.kind := kind;
      this.bubbling := bubbling.GetOr(false);
      this.target := target;
      stopped := false;
      listener := None;
      this.parent, this.child := parent, child;
    }

    /** `cancelEvent()`: the event is stopped from now on; bubbling is untouched. */
    method CancelEvent()
      modifies this`stopped
      ensures stopped
    {
      stopped := true;
    }

    /** `stopBubbling()`: later hierarchy steps are suppressed; `stopped` is untouched. */
    method StopBubbling()
      modifies this`bubbling
      ensures !bubbling
    {
      bubbling := false;
    }
  }
}
