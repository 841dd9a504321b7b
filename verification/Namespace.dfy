/** Namespaced tool names (crates/cli/src/gateway.rs): `server__tool`, split
    again at the first `__`. */
module Namespace {
  import opened Text

  const SEPARATOR := "__"

  function Qualify(server: string, tool: string): string { server + (SEPARATOR + tool) }

  /** `split_once("__")` */
  function SplitOnce(name: string): Option<(string, string)> {
    var at := Find(name, SEPARATOR);
    if at + 2 <= |name| then Some((name[..at], name[at + 2..])) else None
  }

  /** A server name that survives: no `__` inside, no `_` at the end. */
  predicate IsRoutable(server: string) {
    !Contains(server, SEPARATOR) && !EndsWith(server, "_")
  }

  /** Where the separator can start inside a qualified name. */
  lemma {:induction false} SeparatorInside(server: string, tool: string, i: nat)
    requires i < |server|
    ensures OccursAt(Qualify(server, tool), SEPARATOR, i)
            <==> OccursAt(server, SEPARATOR, i) || (i == |server| - 1 && server[i] == '_')
  {
    var name := Qualify(server, tool);
    assert name[i] == server[i];
    assert name[i..i + 2] == [name[i], name[i + 1]];
    if i + 1 < |server| {
      assert name[i + 1] == server[i + 1];
      assert server[i..i + 2] == [server[i], server[i + 1]];
    } else {
      assert name[i + 1] == '_';
    }
  }

  lemma {:induction false} SeparatorAtEnd(server: string, tool: string)
    ensures OccursAt(Qualify(server, tool), SEPARATOR, |server|)
    ensures Qualify(server, tool)[..|server|] == server
    ensures Qualify(server, tool)[|server| + 2..] == tool
  {
    var name := Qualify(server, tool);
    assert name[|server|..|server| + 2] == SEPARATOR;
  }

  /** The first `__` of a qualified name gives back the server and the tool, for
      every tool, exactly when the server name is routable. */
  lemma {:induction false} SplitQualified(server: string, tool: string)
    ensures SplitOnce(Qualify(server, tool)) == Some((server, tool)) <==> IsRoutable(server)
  {
    var name := Qualify(server, tool);
    SeparatorAtEnd(server, tool);
    if IsRoutable(server) {
      forall i | 0 <= i < |server| ensures !OccursAt(name, SEPARATOR, i) {
        SeparatorInside(server, tool, i);
        assert !OccursAt(server, SEPARATOR, i);
        assert i == |server| - 1 ==> server[i..] == [server[i]];
      }
      FindIs(name, SEPARATOR, 0, |server|);
    } else {
      var i := EarlySeparator(server);
      SeparatorInside(server, tool, i);
      assert Find(name, SEPARATOR) <= i;
    }
  }

  lemma {:induction false} EarlySeparator(server: string) returns (i: nat)
    requires !IsRoutable(server)
    ensures i < |server| && (OccursAt(server, SEPARATOR, i) || (i == |server| - 1 && server[i] == '_'))
  {
    if Contains(server, SEPARATOR) {
      i :| 0 <= i <= |server| && OccursAt(server, SEPARATOR, i);
    } else {
      i := |server| - 1;
    }
  }
}
