/** The background tasks a Claude process reports, which keep it from being stopped. */
module ClaudeTasks {

  /** A task frame: its subtype, and the task's id, type and patched status where it has them. */
  datatype Frame = Frame(subtype: string, id: string, taskType: string, status: string)

  /** Delegated agents, and every other background task. */
  datatype Tracked = Tracked(tasks: set<string>, shells: set<string>)

  predicate Defers(taskType: string)
  {
    taskType == "local_agent" || taskType == "local_workflow"
  }

  predicate IsTerminal(status: string)
  {
    status == "completed" || status == "failed" || status == "stopped" || status == "killed"
  }

  predicate Starts(f: Frame)
  {
    f.id != "" && f.subtype == "task_started"
  }

  predicate Ends(f: Frame)
  {
    f.id != "" && (f.subtype == "task_notification" || (f.subtype == "task_updated" && IsTerminal(f.status)))
  }

  function Track(t: Tracked, f: Frame): Tracked
  {
    if Starts(f) then (if Defers(f.taskType) then t.(tasks := t.tasks + {f.id}) else t.(shells := t.shells + {f.id}))
    else if Ends(f) then Tracked(t.tasks - {f.id}, t.shells - {f.id})
    else t
  }

  class Process {
    var tasks: set<string>
    var shells: set<string>

    constructor ()
      ensures Tracked(tasks, shells) == Tracked({}, {})
    {
      tasks, shells := {}, {};
    }

    /** `trackTask` */
    method TrackTask(f: Frame)
      modifies this
      ensures Tracked(tasks, shells) == Track(Tracked(old(tasks), old(shells)), f)
    {
      if f.id == "" {
        return;
      }
      if f.subtype == "task_started" {
        if Defers(f.taskType) {
          tasks := tasks + {f.id};
        } else {
          shells := shells + {f.id};
        }
      } else if f.subtype == "task_notification" {
        tasks, shells := tasks - {f.id}, shells - {f.id};
      } else if f.subtype == "task_updated" && IsTerminal(f.status) {
        tasks, shells := tasks - {f.id}, shells - {f.id};
      }
    }
  }

  function After(frames: seq<Frame>): Tracked
  {
    if frames == [] then Tracked({}, {}) else Track(After(frames[..|frames| - 1]), frames[|frames| - 1])
  }

  /** Frame i starts the task, as a delegated agent or not, and no later frame ends it. */
  ghost predicate RunsSince(frames: seq<Frame>, i: nat, id: string, agent: bool)
  {
    && i < |frames| && Starts(frames[i]) && frames[i].id == id && Defers(frames[i].taskType) == agent
    && forall j :: i < j < |frames| ==> !(Ends(frames[j]) && frames[j].id == id)
  }

  ghost predicate InFlight(frames: seq<Frame>, id: string, agent: bool)
  {
    exists i: nat :: RunsSince(frames, i, id, agent)
  }

  /** A task is tracked exactly from a frame that starts it to the first that ends it: either terminal frame will do, alone or with the other. */
  lemma {:induction false} TrackedWhileInFlight(frames: seq<Frame>, id: string)
    ensures id in After(frames).tasks <==> InFlight(frames, id, true)
    ensures id in After(frames).shells <==> InFlight(frames, id, false)
  {
    if frames != [] {
      TrackedWhileInFlight(frames[..|frames| - 1], id);
      LastFrame(frames, id, true);
      LastFrame(frames, id, false);
    }
  }

  /** What the last frame changes about a task. */
  lemma LastFrame(frames: seq<Frame>, id: string, agent: bool)
    requires frames != []
    ensures var k := |frames| - 1; var f := frames[k];
            InFlight(frames, id, agent) <==>
            (Starts(f) && f.id == id && Defers(f.taskType) == agent) || (!(Ends(f) && f.id == id) && InFlight(frames[..k], id, agent))
  {
    var k := |frames| - 1;
    var f, init := frames[k], frames[..k];
    if Starts(f) && f.id == id && Defers(f.taskType) == agent {
      assert RunsSince(frames, k, id, agent);
    }
    if !(Ends(f) && f.id == id) && InFlight(init, id, agent) {
      var i: nat :| RunsSince(init, i, id, agent);
      assert forall j :: i < j < k ==> frames[j] == init[j];
      assert RunsSince(frames, i, id, agent);
    }
    if InFlight(frames, id, agent) {
      var i: nat :| RunsSince(frames, i, id, agent);
      if i < k {
        assert forall j :: i < j < k ==> frames[j] == init[j];
        assert RunsSince(init, i, id, agent);
      }
    }
  }

  /**
   A task is an agent's when it is a local agent or workflow; a frame ends it when
   it notifies of it, or tells that it completed, failed, was stopped or killed.
   */
  lemma FrameIs(f: Frame)
    ensures Starts(f) <==> f.id != "" && f.subtype == "task_started"
    ensures Defers(f.taskType) <==> f.taskType in {"local_agent", "local_workflow"}
    ensures Ends(f) <==>
            f.id != "" && (f.subtype == "task_notification"
                           || (f.subtype == "task_updated" && f.status in {"completed", "failed", "stopped", "killed"}))
  {}
}
