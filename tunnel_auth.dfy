/**
 * The first line the VNC tunnel client writes to the tunnel server:
 * `TUNNEL_AUTH:<agent id>:<token>` and a newline. The server side that
 * reads it is not part of this model; `ReadAuthLine` is a reader written
 * here to state what the line determines.
 */
module TunnelAuth {
  import opened Wrappers
  import opened PyStr

  const Prefix: string := "TUNNEL_AUTH:"

  /** The handshake line for the agent id and token. */
  function AuthLine(agentId: string, token: string): (line: string)
    ensures StartsWith(line, Prefix)
    ensures |line| == |Prefix| + |agentId| + 1 + |token| + 1
    ensures line[|line| - 1] == '\n'
    ensures line[|Prefix|..|Prefix| + |agentId|] == agentId && line[|Prefix| + |agentId|] == ':'
    ensures line[|Prefix| + |agentId| + 1..|line| - 1] == token
  {
    var line := Prefix + agentId + ":" + token + "\n";
    assert line[..|Prefix|] == Prefix;
    assert line[|Prefix|..|Prefix| + |agentId|] == agentId;
    assert line[|Prefix| + |agentId| + 1..|line| - 1] == token;
    line
  }

  /** The fields of a handshake line: after the prefix, up to the first `:`, then the rest without the final newline. */
  function ReadAuthLine(line: string): Option<(string, string)>
  {
    if !StartsWith(line, Prefix) || |line| == |Prefix| || line[|line| - 1] != '\n' then None
    else
      var body := line[|Prefix|..|line| - 1];
      if ':' in body then Some(SplitFirst(body, ':')) else None
  }

  /** An agent id without `:` comes back out of the line unchanged, and so does the token. */
  lemma ReadAuthLineRoundTrip(agentId: string, token: string)
    requires ':' !in agentId
    ensures ReadAuthLine(AuthLine(agentId, token)) == Some((agentId, token))
  {
    var line := AuthLine(agentId, token);
    var body := line[|Prefix|..|line| - 1];
    assert body == agentId + [':'] + token;
    assert body[|agentId|] == ':';
    var (a, t) := SplitFirst(body, ':');
    IndexOfAfterFree(agentId, ':', token);
    IndexOfAfterFree(a, ':', t);
    assert a == body[..|agentId|] == agentId;
    assert t == body[|a| + 1..] == token;
  }

  /** With `:` allowed in the id, the line no longer determines the pair: `a:b` with token `c` and `a` with token `b:c` give the same line. */
  lemma ColonInAgentIdIsAmbiguous(a: string, b: string, c: string)
    ensures AuthLine(a + ":" + b, c) == AuthLine(a, b + ":" + c)
  {
  }

  /** The line ends with its only newline exactly when neither the id nor the token contains one. */
  lemma SingleNewline(agentId: string, token: string)
    ensures var line := AuthLine(agentId, token);
      '\n' !in line[..|line| - 1] <==> '\n' !in agentId && '\n' !in token
  {
    var line := AuthLine(agentId, token);
    var head := line[..|line| - 1];
    assert head == Prefix + agentId + ":" + token;
    if '\n' in agentId {
      var i :| 0 <= i < |agentId| && agentId[i] == '\n';
      assert head[|Prefix| + i] == '\n';
    }
    if '\n' in token {
      var i :| 0 <= i < |token| && token[i] == '\n';
      assert head[|Prefix| + |agentId| + 1 + i] == '\n';
    }
    if '\n' !in agentId && '\n' !in token {
      forall p | 0 <= p < |head| ensures head[p] != '\n' {
        if p < |Prefix| {
          assert head[p] == Prefix[p];
        } else if p < |Prefix| + |agentId| {
          assert head[p] == agentId[p - |Prefix|];
        } else if p > |Prefix| + |agentId| {
          assert head[p] == token[p - |Prefix| - |agentId| - 1];
        }
      }
    }
  }
}
