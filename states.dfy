/**
 * The application state: the EnzymeML document with its title and the
 * buffer of retired parameters, and the Jupyter state (running sessions,
 * detected Python installations, the selected interpreter).
 */
module States {
  import opened Wrappers
  import opened EnzymeML
  import opened Seqs

  /** Rust's `u16` (a port number). */
  newtype U16 = x: int | 0 <= x < 0x1_0000

  /** Rust's `u8` (an installation's priority). */
  newtype U8 = x: int | 0 <= x < 0x100

  class EnzymeMLState {
    var title: string
    var doc: Document
    var id: Option<int>
    /** Retired parameters, oldest first. */
    var paramBuffer: seq<Parameter>

    /** `EnzymeMLState::default()`. */
    constructor ()
      ensures title == "Document Title"
      ensures doc == EmptyDocument("Document Title")
      ensures id == None
      ensures paramBuffer == []
    {
      title := "Document Title";
      doc := EmptyDocument("Document Title");
      id := None;
      paramBuffer := [];
    }
  }

  /** The live handle of a spawned process; only its identity matters here. */
  datatype ChildHandle = ChildHandle(pid: nat)

  datatype PythonInstallation = PythonInstallation(
    path: string, version: string, source: string, priority: U8, isCustom: bool)

  datatype JupyterSession = JupyterSession(id: string, url: string, port: U16, child: Option<ChildHandle>)

  /** The view of a session handed to the front end: everything but the child handle. */
  datatype JupyterSessionInfo = JupyterSessionInfo(id: string, url: string, port: U16)

  /** `JupyterSession::new`: a session without a child handle. */
  function NewSession(id: string, url: string, port: U16): (s: JupyterSession)
    ensures s.child.None? && s.id == id && s.url == url && s.port == port
  {
    JupyterSession(id, url, port, None)
  }

  function InfoOf(s: JupyterSession): (i: JupyterSessionInfo)
    ensures i.id == s.id && i.url == s.url && i.port == s.port
  {
    JupyterSessionInfo(s.id, s.url, s.port)
  }

  class JupyterState {
    var sessions: seq<JupyterSession>
    var detectedPythons: seq<PythonInstallation>
    var selectedPythonPath: Option<string>

    /** `JupyterState::default()`. */
    constructor ()
      ensures sessions == [] && detectedPythons == [] && selectedPythonPath == None
    {
      sessions := [];
      detectedPythons := [];
      selectedPythonPath := None;
    }

    method AddSession(session: JupyterSession)
      modifies this
      ensures sessions == old(sessions) + [session]
      ensures detectedPythons == old(detectedPythons) && selectedPythonPath == old(selectedPythonPath)
    {
      sessions := sessions + [session];
    }

    /** Stores the child handle inside the new session, so it lives as long as the session. */
    method AddSessionWithChild(id: string, url: string, port: U16, child: ChildHandle)
      modifies this
      ensures sessions == old(sessions) + [JupyterSession(id, url, port, Some(child))]
      ensures detectedPythons == old(detectedPythons) && selectedPythonPath == old(selectedPythonPath)
    {
      sessions := sessions + [JupyterSession(id, url, port, Some(child))];
    }

    /** One view per session, in order, without child handles. */
    function GetSessions(): (r: seq<JupyterSessionInfo>)
      reads this
      ensures |r| == |sessions|
      ensures forall i :: 0 <= i < |r| ==> r[i] == InfoOf(sessions[i])
    {
      seq(|sessions|, i reads this requires 0 <= i < |sessions| => InfoOf(sessions[i]))
    }

    /** The view of the first session with this URL. */
    function GetSession(url: string): (r: Option<JupyterSessionInfo>)
      reads this
      ensures r.None? <==> forall i :: 0 <= i < |sessions| ==> sessions[i].url != url
      ensures r.Some? ==> (exists i :: 0 <= i < |sessions| && sessions[i].url == url && r.value == InfoOf(sessions[i]) &&
                             forall j :: 0 <= j < i ==> sessions[j].url != url)
    {
      match FindWhere(sessions, (s: JupyterSession) => s.url == url) {
        case None => None
        case Some(s) => Some(InfoOf(s))
      }
    }

    /** Takes the child out of the first session with this id; the session stays, without a child. */
    method TakeChildFromSession(id: string) returns (child: Option<ChildHandle>)
      modifies this
      ensures match IndexWhere(old(sessions), (s: JupyterSession) => s.id == id) {
        case None => child.None? && sessions == old(sessions)
        case Some(k) =>
          child == old(sessions)[k].child && sessions == old(sessions)[k := old(sessions)[k].(child := None)]
      }
      ensures detectedPythons == old(detectedPythons) && selectedPythonPath == old(selectedPythonPath)
    {
      var pos := IndexWhere(sessions, (s: JupyterSession) => s.id == id);
      if pos.Some? {
        child := sessions[pos.value].child;
        sessions := sessions[pos.value := sessions[pos.value].(child := None)];
      } else {
        child := None;
      }
    }

    /** Removes the first session with this id and hands it back, child included. */
    method RemoveSessionById(id: string) returns (removed: Option<JupyterSession>)
      modifies this
      ensures match IndexWhere(old(sessions), (s: JupyterSession) => s.id == id) {
        case None => removed.None? && sessions == old(sessions)
        case Some(k) => removed == Some(old(sessions)[k]) && sessions == RemoveAt(old(sessions), k)
      }
      ensures detectedPythons == old(detectedPythons) && selectedPythonPath == old(selectedPythonPath)
    {
      var pos := IndexWhere(sessions, (s: JupyterSession) => s.id == id);
      if pos.Some? {
        removed := Some(sessions[pos.value]);
        sessions := RemoveAt(sessions, pos.value);
      } else {
        removed := None;
      }
    }

    /**
     * Removes the session and kills its child, if it has one. `kill` stands
     * for `CommandChild::kill`. The session is gone even when the kill fails.
     */
    method KillChild(id: string, kill: ChildHandle -> Result<Unit, string>) returns (r: Result<Unit, string>)
      modifies this
      ensures match IndexWhere(old(sessions), (s: JupyterSession) => s.id == id) {
        case None =>
          r == Err("no session found for id " + id) && sessions == old(sessions)
        case Some(k) =>
          sessions == RemoveAt(old(sessions), k) &&
          r == match old(sessions)[k].child {
            case None => Ok(Unit)
            case Some(c) =>
              if kill(c).Err? then Err("failed to kill child for " + id + ": " + kill(c).error) else Ok(Unit)
          }
      }
      ensures detectedPythons == old(detectedPythons) && selectedPythonPath == old(selectedPythonPath)
    {
      var removed := RemoveSessionById(id);
      if removed.Some? {
        var session := removed.value;
        if session.child.Some? {
          var outcome := kill(session.child.value);
          if outcome.Err? {
            return Err("failed to kill child for " + id + ": " + outcome.error);
          }
        }
        r := Ok(Unit);
      } else {
        r := Err("no session found for id " + id);
      }
    }
  }

  /** After a take, a second take on the same session finds no child. */
  lemma TakeTwiceFindsNothing(sessions: seq<JupyterSession>, id: string, k: nat)
    requires IndexWhere(sessions, (s: JupyterSession) => s.id == id) == Some(k)
    ensures IndexWhere(sessions[k := sessions[k].(child := None)], (s: JupyterSession) => s.id == id) == Some(k)
    ensures sessions[k := sessions[k].(child := None)][k].child.None?
  {
    var p := (s: JupyterSession) => s.id == id;
    var after := sessions[k := sessions[k].(child := None)];
    assert forall j :: 0 <= j < k ==> !p(after[j]);
    assert p(after[k]);
  }
}
