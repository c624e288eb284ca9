/**
  Get-or-create provisioning of sbmgmt/topicmgmt.go: `GetOrBuildTopic`,
  `GetOrBuildSubscription` and `DeleteTopic`, over an abstract Service Bus
  namespace holding a set of topic names and a set of (topic, subscription)
  pairs. Each call into the SDK or the service that can fail is an input
  (`Faults`); a "not found" lookup is not a fault but follows from the
  namespace. `log.Fatalln` ends the process, so the statements the source
  writes after it never run: those paths end in `Aborted`.
*/
module Provisioning {
  import opened Wrappers

  datatype SubKey = SubKey(topic: string, name: string)

  datatype Namespace = Namespace(topics: set<string>, subscriptions: set<SubKey>)

  /**
    What each call reports when it fails (None: it succeeds): obtaining the
    namespace, building the subscription manager, a lookup failing for a
    reason other than "not found", the create (`Put`), building the client
    handle, and the delete.
  */
  datatype Faults = Faults(
    namespace: Option<string>,
    manager: Option<string>,
    lookup: Option<string>,
    create: Option<string>,
    client: Option<string>,
    delete: Option<string>)

  datatype TopicHandle = TopicHandle(name: string)

  datatype SubscriptionHandle = SubscriptionHandle(topic: string, name: string)

  /**
    How a get-or-create call ends: the process exits through `log.Fatalln`,
    an error is returned, or a handle is returned. `createIssued` tells
    whether a `Put` was sent; `after` is the namespace once the call is over.
  */
  datatype Provisioned<T> =
    | Aborted(reason: string)
    | Failed(err: string, after: Namespace, createIssued: bool)
    | Built(handle: T, after: Namespace, createIssued: bool)

  /** `DeleteTopic` either exits the process or returns nil. */
  datatype Deletion = DeleteAborted(reason: string) | Deleted(after: Namespace)

  /** None of the calls a get-or-create makes past the managers fails. */
  predicate Reliable(f: Faults) {
    f.lookup.None? && f.create.None? && f.client.None?
  }

  /**
    `GetOrBuildTopic`: look the topic up; a "not found" leads to a create, any
    other lookup error is returned; an existing topic is left as it is; then a
    client handle is built for the name.
  */
  function GetOrBuildTopic(f: Faults, ns: Namespace, name: string): (r: Provisioned<TopicHandle>)
    ensures r.Built? ==> name in r.after.topics && r.handle == TopicHandle(name)
    ensures !r.Aborted? ==> r.after.subscriptions == ns.subscriptions
    ensures !r.Aborted? ==> r.after.topics - {name} == ns.topics - {name}
  {
    if f.namespace.Some? then Aborted(f.namespace.value)
    else if f.lookup.Some? then Failed(f.lookup.value, ns, false)
    else if name !in ns.topics && f.create.Some? then Failed(f.create.value, ns, true)
    else
      var after := ns.(topics := ns.topics + {name});
      if f.client.Some? then Failed(f.client.value, after, name !in ns.topics)
      else Built(TopicHandle(name), after, name !in ns.topics)
  }

  /**
    `GetOrBuildSubscription(subName, topicName)`: the same get-or-create for
    the pair (topic, subscription), with the subscription manager for the
    topic obtained first.
  */
  function GetOrBuildSubscription(f: Faults, ns: Namespace, subName: string, topicName: string): (r: Provisioned<SubscriptionHandle>)
    ensures r.Built? ==> SubKey(topicName, subName) in r.after.subscriptions
    ensures r.Built? ==> r.handle == SubscriptionHandle(topicName, subName)
    ensures !r.Aborted? ==> r.after.topics == ns.topics
    ensures !r.Aborted? ==> r.after.subscriptions - {SubKey(topicName, subName)} == ns.subscriptions - {SubKey(topicName, subName)}
  {
    var key := SubKey(topicName, subName);
    if f.namespace.Some? then Aborted(f.namespace.value)
    else if f.manager.Some? then Aborted(f.manager.value)
    else if f.lookup.Some? then Failed(f.lookup.value, ns, false)
    else if key !in ns.subscriptions && f.create.Some? then Failed(f.create.value, ns, true)
    else
      var after := ns.(subscriptions := ns.subscriptions + {key});
      if f.client.Some? then Failed(f.client.value, after, key !in ns.subscriptions)
      else Built(SubscriptionHandle(topicName, subName), after, key !in ns.subscriptions)
  }

  /** `DeleteTopic`: both failure paths log fatally, so a return always means success. */
  function DeleteTopic(f: Faults, ns: Namespace, name: string): (r: Deletion)
    ensures r.Deleted? <==> f.namespace.None? && f.delete.None?
    ensures r.Deleted? ==> name !in r.after.topics
    ensures r.Deleted? ==> r.after.topics + {name} == ns.topics + {name}
    ensures r.Deleted? ==> r.after.subscriptions == ns.subscriptions
  {
    if f.namespace.Some? then DeleteAborted(f.namespace.value)
    else if f.delete.Some? then DeleteAborted(f.delete.value)
    else Deleted(ns.(topics := ns.topics - {name}))
  }

  // ---------------------------------------------------------------- topics

  /** A namespace failure exits the process; nothing is returned to the caller. */
  lemma TopicNamespaceFailureAborts(f: Faults, ns: Namespace, name: string)
    requires f.namespace.Some?
    ensures GetOrBuildTopic(f, ns, name) == Aborted(f.namespace.value)
  {
  }

  /** An existing topic is never created again and the namespace is unchanged, whatever else fails. */
  lemma ExistingTopicUntouched(f: Faults, ns: Namespace, name: string)
    requires name in ns.topics
    ensures var r := GetOrBuildTopic(f, ns, name);
      !r.Aborted? ==> r.after == ns && !r.createIssued
  {
  }

  /** A lookup error other than "not found" is returned and nothing is created. */
  lemma TopicLookupErrorReturned(f: Faults, ns: Namespace, name: string)
    requires f.namespace.None? && f.lookup.Some?
    ensures GetOrBuildTopic(f, ns, name) == Failed(f.lookup.value, ns, false)
  {
  }

  /** A missing topic whose create fails: the create was issued, its error is returned, nothing changed. */
  lemma TopicCreateFailureReturned(f: Faults, ns: Namespace, name: string)
    requires f.namespace.None? && f.lookup.None? && f.create.Some? && name !in ns.topics
    ensures GetOrBuildTopic(f, ns, name) == Failed(f.create.value, ns, true)
  {
  }

  /** With no failures a topic is ensured: present afterwards, created exactly when it was missing. */
  lemma TopicEnsured(f: Faults, ns: Namespace, name: string)
    requires f.namespace.None? && Reliable(f)
    ensures var r := GetOrBuildTopic(f, ns, name);
      && r.Built?
      && r.after.topics == ns.topics + {name}
      && (r.createIssued <==> name !in ns.topics)
  {
  }

  /** A second call after a successful one is a no-op returning the same handle. */
  lemma TopicSecondCallNoop(f: Faults, g: Faults, ns: Namespace, name: string)
    requires GetOrBuildTopic(f, ns, name).Built?
    requires g.namespace.None? && g.lookup.None? && g.client.None?
    ensures var first := GetOrBuildTopic(f, ns, name);
      GetOrBuildTopic(g, first.after, name) == Built(first.handle, first.after, false)
  {
  }

  /** Deleting removes exactly the named topic. */
  lemma DeleteTopicRemovesOnlyName(f: Faults, ns: Namespace, name: string)
    requires f.namespace.None? && f.delete.None?
    ensures DeleteTopic(f, ns, name) == Deleted(Namespace(ns.topics - {name}, ns.subscriptions))
    ensures forall other :: other in ns.topics && other != name ==> other in DeleteTopic(f, ns, name).after.topics
  {
  }

  /** A delete failure exits the process rather than returning an error. */
  lemma DeleteFailureAborts(f: Faults, ns: Namespace, name: string)
    requires f.namespace.None? && f.delete.Some?
    ensures DeleteTopic(f, ns, name) == DeleteAborted(f.delete.value)
  {
  }

  /** Deleting a topic the provisioning just created gives the original namespace back. */
  lemma DeleteUndoesCreate(f: Faults, ns: Namespace, name: string)
    requires GetOrBuildTopic(f, ns, name).Built? && name !in ns.topics
    requires f.delete.None?
    ensures DeleteTopic(f, GetOrBuildTopic(f, ns, name).after, name) == Deleted(ns)
  {
    var after := GetOrBuildTopic(f, ns, name).after;
    assert after.topics - {name} == ns.topics;
  }

  // ---------------------------------------------------------------- subscriptions

  /** Failing to obtain the namespace or the subscription manager exits the process. */
  lemma SubscriptionManagerFailureAborts(f: Faults, ns: Namespace, subName: string, topicName: string)
    requires f.namespace.Some? || f.manager.Some?
    ensures GetOrBuildSubscription(f, ns, subName, topicName).Aborted?
  {
  }

  /** An existing subscription is never created again and the namespace is unchanged. */
  lemma ExistingSubscriptionUntouched(f: Faults, ns: Namespace, subName: string, topicName: string)
    requires SubKey(topicName, subName) in ns.subscriptions
    ensures var r := GetOrBuildSubscription(f, ns, subName, topicName);
      !r.Aborted? ==> r.after == ns && !r.createIssued
  {
  }

  /** A lookup error other than "not found" is returned and nothing is created. */
  lemma SubscriptionLookupErrorReturned(f: Faults, ns: Namespace, subName: string, topicName: string)
    requires f.namespace.None? && f.manager.None? && f.lookup.Some?
    ensures GetOrBuildSubscription(f, ns, subName, topicName) == Failed(f.lookup.value, ns, false)
  {
  }

  /** A missing subscription whose create fails returns that error and changes nothing. */
  lemma SubscriptionCreateFailureReturned(f: Faults, ns: Namespace, subName: string, topicName: string)
    requires f.namespace.None? && f.manager.None? && f.lookup.None? && f.create.Some?
    requires SubKey(topicName, subName) !in ns.subscriptions
    ensures GetOrBuildSubscription(f, ns, subName, topicName) == Failed(f.create.value, ns, true)
  {
  }

  /** With no failures the pair is ensured, and only that pair can be added. */
  lemma SubscriptionEnsured(f: Faults, ns: Namespace, subName: string, topicName: string)
    requires f.namespace.None? && f.manager.None? && Reliable(f)
    ensures var r := GetOrBuildSubscription(f, ns, subName, topicName);
      && r.Built?
      && r.after == Namespace(ns.topics, ns.subscriptions + {SubKey(topicName, subName)})
      && (r.createIssued <==> SubKey(topicName, subName) !in ns.subscriptions)
  {
  }

  /** A second call after a successful one is a no-op returning the same handle. */
  lemma SubscriptionSecondCallNoop(f: Faults, g: Faults, ns: Namespace, subName: string, topicName: string)
    requires GetOrBuildSubscription(f, ns, subName, topicName).Built?
    requires g.namespace.None? && g.manager.None? && g.lookup.None? && g.client.None?
    ensures var first := GetOrBuildSubscription(f, ns, subName, topicName);
      GetOrBuildSubscription(g, first.after, subName, topicName) == Built(first.handle, first.after, false)
  {
  }
}
