/** The live state of the cofounder/api/server.js process: which sockets
    watch which project (line 339) and the flat state last loaded for each
    project (line 340), with the socket handlers and helpers that change or
    read them (lines 366-438 and 447-534). The loader, the sockets and the
    emits are not modelled: the loader's answer is a parameter and an emit
    is returned as a value. */
module Server {
  import opened Values
  import opened ProjectState
  import opened SequenceRunner

  /** `list.filter((id) => id !== x)` */
  function Without(s: seq<string>, x: string): (r: seq<string>)
    ensures x !in r
    ensures forall y :: y != x ==> multiset(r)[y] == multiset(s)[y]
  {
    if |s| == 0 then []
    else
      assert s == [s[0]] + s[1..];
      (if s[0] == x then [] else [s[0]]) + Without(s[1..], x)
  }

  /** Filtering a concatenation filters each part in place: the ids that
      are kept stay in their original order. */
  lemma {:induction false} WithoutAppend(a: seq<string>, b: seq<string>, x: string)
    ensures Without(a + b, x) == Without(a, x) + Without(b, x)
  {
    if |a| > 0 {
      WithoutAppend(a[1..], b, x);
      assert (a + b)[1..] == a[1..] + b;
    } else {
      assert a + b == b;
    }
  }

  /** A list without the id is left as it is. */
  lemma {:induction false} WithoutAbsent(s: seq<string>, x: string)
    requires x !in s
    ensures Without(s, x) == s
  {
    if |s| > 0 {
      WithoutAbsent(s[1..], x);
      assert s == [s[0]] + s[1..];
    }
  }

  /** The subscriber list of a project; a project without one has none. */
  function SubscribersOf(subscriptions: map<string, seq<string>>, project: string): (r: seq<string>)
    ensures project in subscriptions ==> r == subscriptions[project]
    ensures project !in subscriptions ==> r == []
  {
    if project in subscriptions then subscriptions[project] else []
  }

  /** Subscribing a socket and then disconnecting it leaves the project's
      list as it was, but without that socket. */
  lemma SubscribeThenDisconnect(subscriptions: map<string, seq<string>>, project: string, socket: string)
    ensures Without(SubscribersOf(subscriptions, project) + [socket], socket)
         == Without(SubscribersOf(subscriptions, project), socket)
  {
    WithoutAppend(SubscribersOf(subscriptions, project), [socket], socket);
    assert Without([socket], socket) == [];
  }

  /** `state$load` to the project's room with the stored flat state. */
  datatype LoadEvent = LoadEvent(to: seq<string>, state: Bag)

  /** `state$update` to the project's room: the key and data sent, or, for a
      two- or three-segment `webapp.` key, the shape-dependent outcome. */
  datatype UpdateEvent = UpdateEvent(to: seq<string>, update: Update)

  /** What `resume_project` returns: the loaded `state` and the step to resume at. */
  datatype Resumed = Resumed(data: Bag, resume: int)

  class ApiServer {
    /** `subscriptions`: project to the ids of the sockets watching it. */
    var subscriptions: map<string, seq<string>>
    /** `projects`: project to the flat state `load_project` stored last. */
    var projects: map<string, Bag>

    constructor ()
      ensures subscriptions == map[] && projects == map[]
    {
      subscriptions := map[];
      projects := map[];
    }

    /** `load_project`: a failing loader throws before anything is stored;
        otherwise the project's flat state is replaced and the loader's
        `state` object returned. */
    method LoadProject(project: string, loaded: Result<Snapshot>) returns (r: Result<Bag>)
      modifies this
      ensures loaded.Err? ==> r == Err(loaded.error)
      ensures loaded.Ok? ==> r == Ok(loaded.value.state)
      ensures subscriptions == old(subscriptions)
      ensures loaded.Err? ==> projects == old(projects)
      ensures loaded.Ok? ==> projects.Keys == old(projects).Keys + {project}
      ensures loaded.Ok? ==> Loaded(loaded.value, projects[project])
      ensures forall q :: q in old(projects) && q != project ==> projects[q] == old(projects)[q]
    {
      if loaded.Err? {
        return Err(loaded.error);
      }
      var data := ProjectData(loaded.value);
      projects := projects[project := data];
      r := Ok(loaded.value.state);
    }

    /** The `subscribe` handler: the socket joins the project's list (made
        if missing), then the project is loaded and its state sent to the
        whole list; a failing load is caught and nothing is sent. */
    method Subscribe(project: string, socket: string, loaded: Result<Snapshot>) returns (sent: Option<LoadEvent>)
      modifies this
      ensures subscriptions == old(subscriptions)[project := SubscribersOf(old(subscriptions), project) + [socket]]
      ensures loaded.Err? ==> sent.None? && projects == old(projects)
      ensures loaded.Ok? ==> project in projects && Loaded(loaded.value, projects[project])
      ensures loaded.Ok? ==> sent == Some(LoadEvent(subscriptions[project], projects[project]))
      ensures loaded.Ok? ==> projects.Keys == old(projects).Keys + {project}
      ensures forall q :: q in old(projects) && q != project ==> projects[q] == old(projects)[q]
    {
      if project !in subscriptions {
        subscriptions := subscriptions[project := []];
      }
      subscriptions := subscriptions[project := subscriptions[project] + [socket]];
      var r := LoadProject(project, loaded);
      if r.Err? {
        return None;
      }
      sent := Some(LoadEvent(subscriptions[project], projects[project]));
    }

    /** The `disconnect` handler: every project's list is filtered of the socket. */
    method Disconnect(socket: string)
      modifies this
      ensures subscriptions.Keys == old(subscriptions).Keys
      ensures forall p :: p in subscriptions ==> subscriptions[p] == Without(old(subscriptions)[p], socket)
      ensures projects == old(projects)
    {
      var pending := subscriptions.Keys;
      while pending != {}
        invariant pending <= subscriptions.Keys == old(subscriptions).Keys
        invariant forall p :: p in subscriptions ==>
                    subscriptions[p] == (if p in pending then old(subscriptions)[p] else Without(old(subscriptions)[p], socket))
        invariant projects == old(projects)
        decreases pending
      {
        var p :| p in pending;
        subscriptions := subscriptions[p := Without(subscriptions[p], socket)];
        pending := pending - {p};
      }
    }

    /** `resume_project`: load the project, then find the first step of the
        project table that its flat keys do not yet cover. */
    method ResumeProject(project: string, loaded: Result<Snapshot>) returns (r: Result<Resumed>)
      modifies this
      ensures subscriptions == old(subscriptions)
      ensures loaded.Err? ==> r == Err(loaded.error) && projects == old(projects)
      ensures loaded.Ok? ==> project in projects && Loaded(loaded.value, projects[project])
      ensures loaded.Ok? ==> r.Ok? && r.value.data == loaded.value.state
      ensures loaded.Ok? ==> IsResumeIndex(ProjectSteps, projects[project].Keys, r.value.resume)
      ensures loaded.Ok? ==> 1 <= r.value.resume <= 14
      ensures loaded.Ok? ==> projects.Keys == old(projects).Keys + {project}
      ensures forall q :: q in old(projects) && q != project ==> projects[q] == old(projects)[q]
    {
      var data := LoadProject(project, loaded);
      if data.Err? {
        return Err(data.error);
      }
      var index := ResumeIndex(ProjectSteps, projects[project].Keys);
      ResumeBounds(projects[project].Keys, index);
      r := Ok(Resumed(data.value, index));
    }

    /** `streams.update`: nothing is sent for a project nobody watches; a
        key whose rewrite throws rejects the handler before anything is
        sent; otherwise the rewritten key and data go to its list. */
    method Update(project: string, key: string, data: Value) returns (r: Result<Option<UpdateEvent>>)
      ensures project !in subscriptions ==> r == Ok(None)
      ensures project in subscriptions && RewriteUpdate(key, data).Throws? ==>
                r == Err(RewriteUpdate(key, data).error)
      ensures project in subscriptions && !RewriteUpdate(key, data).Throws? ==>
                r == Ok(Some(UpdateEvent(subscriptions[project], RewriteUpdate(key, data))))
    {
      if project !in subscriptions {
        return Ok(None);
      }
      var update := RewriteKey(key, data);
      if update.Throws? {
        return Err(update.error);
      }
      r := Ok(Some(UpdateEvent(subscriptions[project], update)));
    }
  }

  /** The resume point `resume_project` finds, handed to the project
      sequence as `context.sequence.resume`, skips exactly the steps already
      done: the run equals a fresh run of the remaining levels. */
  lemma ResumeSkipsDoneSteps(call: Dispatch, levels: seq<seq<SequenceRunner.Id>>, keys: set<string>, index: int, data: Bag)
    requires IsResumeIndex(ProjectSteps, keys, index)
    requires |levels| == |ProjectSteps|
    ensures index >= 1
    ensures Run(call, levels, Some(Num(index)), data).result == Run(call, levels[index..], None, data).result
  {
    ResumeBounds(keys, index);
    ResumeIsSuffixRun(call, levels, index, data);
  }
}
