/** The WebSocket hub's two-way index between topics and clients. */
module Hub {

  class Client {
    var topics: set<string>

    constructor ()
      ensures topics == {}
    {
      topics := {};
    }
  }

  class Hub {
    var subscriptions: map<string, set<Client>>
    /** Every client that has ever subscribed. */
    ghost var clients: set<Client>

    constructor ()
      ensures Valid() && subscriptions == map[] && clients == {}
    {
      subscriptions, clients := map[], {};
    }

    /** Who receives a broadcast on a topic. */
    ghost function Members(topic: string): set<Client>
      reads this
    {
      if topic in subscriptions then subscriptions[topic] else {}
    }

    /** The same, in terms of the two maps themselves. */
    ghost predicate AreInverses()
      reads this, clients
    {
      && (forall topic :: topic in subscriptions ==> subscriptions[topic] != {})
      && (forall c, topic :: c in clients ==>
            (topic in c.topics <==> topic in subscriptions && c in subscriptions[topic]))
    }

    /** The two directions are exact inverses, and no topic keeps an empty set. */
    ghost predicate Valid()
      reads this, clients
    {
      && (forall topic :: topic in subscriptions ==> subscriptions[topic] != {} && subscriptions[topic] <= clients)
      && (forall c, topic :: c in clients ==> (c in Members(topic) <==> topic in c.topics))
    }

    lemma ValidMeansInverses()
      requires Valid()
      ensures AreInverses()
    {
      forall c, topic | c in clients
        ensures topic in c.topics <==> topic in subscriptions && c in subscriptions[topic]
      {
        assert c in Members(topic) <==> topic in c.topics;
      }
    }

    method Subscribe(client: Client, topic: string)
      requires Valid() && (client !in clients ==> client.topics == {})
      modifies this, client
      ensures Valid() && clients == old(clients) + {client}
      ensures client.topics == old(client.topics) + {topic}
      ensures forall t :: Members(t) == if t == topic then old(Members(t)) + {client} else old(Members(t))
    {
      assert forall t :: Members(t) <= clients;
      if topic !in subscriptions {
        subscriptions := subscriptions[topic := {}];
      }
      subscriptions := subscriptions[topic := subscriptions[topic] + {client}];
      client.topics := client.topics + {topic};
      clients := clients + {client};
      forall c, t | c in clients ensures c in Members(t) <==> t in c.topics {
        assert c in old(clients) ==> (c in old(Members(t)) <==> t in old(c.topics));
      }
    }

    /** Take a client off one topic, and the topic off the map if it was the last one. */
    method Remove(client: Client, topic: string)
      modifies this`subscriptions
      ensures forall t :: Members(t) == if t == topic then old(Members(t)) - {client} else old(Members(t))
      ensures (forall t :: t in old(subscriptions) ==> old(subscriptions)[t] != {}) ==>
        forall t :: t in subscriptions ==> t in old(subscriptions) && subscriptions[t] != {}
    {
      if topic in subscriptions {
        var rest := subscriptions[topic] - {client};
        subscriptions := if rest == {} then subscriptions - {topic} else subscriptions[topic := rest];
      }
    }

    method Unsubscribe(client: Client, topic: string)
      requires Valid() && (client !in clients ==> client.topics == {})
      modifies this, client
      ensures Valid() && clients == old(clients)
      ensures client.topics == old(client.topics) - {topic}
      ensures forall t :: Members(t) == if t == topic then old(Members(t)) - {client} else old(Members(t))
    {
      Remove(client, topic);
      client.topics := client.topics - {topic};
      forall t | t in subscriptions ensures subscriptions[t] <= clients {
        assert Members(t) <= old(Members(t));
      }
    }

    method RemoveFromAll(client: Client, topics: set<string>)
      modifies this`subscriptions
      ensures forall t :: Members(t) == if t in topics then old(Members(t)) - {client} else old(Members(t))
      ensures (forall t :: t in old(subscriptions) ==> old(subscriptions)[t] != {}) ==>
        forall t :: t in subscriptions ==> t in old(subscriptions) && subscriptions[t] != {}
    {
      var todo := topics;
      while todo != {}
        invariant todo <= topics
        invariant forall t :: Members(t) == if t in topics - todo then old(Members(t)) - {client} else old(Members(t))
        invariant (forall t :: t in old(subscriptions) ==> old(subscriptions)[t] != {}) ==>
          forall t :: t in subscriptions ==> t in old(subscriptions) && subscriptions[t] != {}
        decreases |todo|
      {
        var topic :| topic in todo;
        Remove(client, topic);
        todo := todo - {topic};
      }
    }

    /** Afterwards the client appears under no topic, and nobody else is affected. */
    method UnsubscribeAll(client: Client)
      requires Valid() && (client !in clients ==> client.topics == {})
      modifies this, client
      ensures Valid() && clients == old(clients)
      ensures client.topics == {}
      ensures forall t :: Members(t) == old(Members(t)) - {client}
    {
      assert forall t :: t !in client.topics ==> client !in Members(t);
      RemoveFromAll(client, client.topics);
      client.topics := {};
      forall t | t in subscriptions ensures subscriptions[t] <= clients {
        assert Members(t) <= old(Members(t));
      }
    }
  }
}
