/** The stored form of the agent's identity (AgentConfig in src/agent.rs). */
module AgentCodec {
  import opened Bytes
  import opened Utf8
  import opened Wrappers

  const MAGIC: seq<Byte> := [0x41, 0x47, 0x43, 0x31]
  const HEADER_LEN: nat := 10
  const MAX_NODE_ID_LEN: nat := 64
  const MAX_CTRL_URL_LEN: nat := 192
  const MAX_TOKEN_LEN: nat := 64
  const BUDGET: nat := 384

  datatype AgentConfig = AgentConfig(nodeId: Text, ctrlUrl: Text, token: Text)

  const DEFAULT := AgentConfig([], [], [])

  predicate WithinLimits(c: AgentConfig) {
    |c.nodeId| <= MAX_NODE_ID_LEN && |c.ctrlUrl| <= MAX_CTRL_URL_LEN && |c.token| <= MAX_TOKEN_LEN
  }

  function Lengths(node: nat, ctrl: nat, token: nat): (b: seq<Byte>)
    requires node < 0x1_0000 && ctrl < 0x1_0000 && token < 0x1_0000
    ensures |b| == 6
  {
    Le16(node) + Le16(ctrl) + Le16(token)
  }

  function Record(c: AgentConfig): (raw: seq<Byte>)
    requires WithinLimits(c)
    ensures |raw| == HEADER_LEN + |c.nodeId| + |c.ctrlUrl| + |c.token|
  {
    MAGIC + Lengths(|c.nodeId|, |c.ctrlUrl|, |c.token|) + (c.nodeId + c.ctrlUrl + c.token)
  }

  function Encoded(c: AgentConfig): Option<seq<Byte>> {
    if !WithinLimits(c) || |Record(c)| > BUDGET then None else Some(Record(c))
  }

  function Decoded(raw: seq<Byte>): Option<AgentConfig> {
    if |raw| < HEADER_LEN || raw[..4] != MAGIC then None
    else
      var node, ctrl, token := FromLe16(raw[4], raw[5]), FromLe16(raw[6], raw[7]), FromLe16(raw[8], raw[9]);
      if node > MAX_NODE_ID_LEN || ctrl > MAX_CTRL_URL_LEN || token > MAX_TOKEN_LEN then None
      else if HEADER_LEN + node + ctrl + token != |raw| then None
      else
        var nodeEnd := HEADER_LEN + node;
        var ctrlEnd := nodeEnd + ctrl;
        if Valid(raw[HEADER_LEN..nodeEnd]) && Valid(raw[nodeEnd..ctrlEnd]) && Valid(raw[ctrlEnd..]) then
          Some(AgentConfig(raw[HEADER_LEN..nodeEnd], raw[nodeEnd..ctrlEnd], raw[ctrlEnd..]))
        else None
  }

  /** `encode`, pushing the pieces in order. */
  method Encode(c: AgentConfig) returns (out: Option<seq<Byte>>)
    ensures out == Encoded(c)
  {
    if |c.nodeId| > MAX_NODE_ID_LEN || |c.ctrlUrl| > MAX_CTRL_URL_LEN || |c.token| > MAX_TOKEN_LEN {
      return None;
    }
    var total := HEADER_LEN + |c.nodeId| + |c.ctrlUrl| + |c.token|;
    if total > BUDGET {
      return None;
    }
    var buffer := MAGIC;
    buffer := buffer + Le16(|c.nodeId|);
    buffer := buffer + Le16(|c.ctrlUrl|);
    buffer := buffer + Le16(|c.token|);
    assert buffer == MAGIC + Lengths(|c.nodeId|, |c.ctrlUrl|, |c.token|);
    buffer := buffer + c.nodeId;
    buffer := buffer + c.ctrlUrl;
    buffer := buffer + c.token;
    assert buffer == Record(c);
    out := Some(buffer);
  }

  lemma SplitRecord(head: seq<Byte>, l: seq<Byte>, a: seq<Byte>, b: seq<Byte>, c: seq<Byte>)
    requires |head| == 4 && |l| == 6
    ensures var raw := head + l + (a + b + c);
            raw[..4] == head && raw[4..10] == l
            && raw[10..10 + |a|] == a && raw[10 + |a|..10 + |a| + |b|] == b && raw[10 + |a| + |b|..] == c
  {
  }

  lemma DecodeOfRecord(c: AgentConfig)
    requires WithinLimits(c)
    ensures Decoded(Record(c)) == Some(c)
  {
    var l := Lengths(|c.nodeId|, |c.ctrlUrl|, |c.token|);
    SplitRecord(MAGIC, l, c.nodeId, c.ctrlUrl, c.token);
    var raw := Record(c);
    assert raw[4] == raw[4..10][0] && raw[5] == raw[4..10][1] && raw[6] == raw[4..10][2];
    assert raw[7] == raw[4..10][3] && raw[8] == raw[4..10][4] && raw[9] == raw[4..10][5];
    Le16RoundTrip(|c.nodeId|);
    Le16RoundTrip(|c.ctrlUrl|);
    Le16RoundTrip(|c.token|);
  }

  lemma JoinRecord(raw: seq<Byte>, a: nat, b: nat)
    requires HEADER_LEN <= a <= b <= |raw|
    ensures raw == raw[..4] + raw[4..10] + (raw[HEADER_LEN..a] + raw[a..b] + raw[b..])
  {
  }

  lemma LengthsOfHeader(raw: seq<Byte>)
    requires |raw| >= HEADER_LEN
    ensures raw[4..10] == Lengths(FromLe16(raw[4], raw[5]), FromLe16(raw[6], raw[7]), FromLe16(raw[8], raw[9]))
  {
    FromLe16RoundTrip(raw[4], raw[5]);
    FromLe16RoundTrip(raw[6], raw[7]);
    FromLe16RoundTrip(raw[8], raw[9]);
  }

  lemma RecordOfDecoded(raw: seq<Byte>)
    requires Decoded(raw).Some?
    ensures WithinLimits(Decoded(raw).value) && Record(Decoded(raw).value) == raw
  {
    var nodeEnd := HEADER_LEN + FromLe16(raw[4], raw[5]);
    LengthsOfHeader(raw);
    JoinRecord(raw, nodeEnd, nodeEnd + FromLe16(raw[6], raw[7]));
  }

  /** The codec is a bijection between the records it accepts and the configurations it can
      store: exactly one byte string per configuration, and nothing else decodes. */
  lemma Bijection(raw: seq<Byte>, c: AgentConfig)
    ensures Decoded(raw) == Some(c) <==> Encoded(c) == Some(raw)
  {
    if Decoded(raw) == Some(c) {
      RecordOfDecoded(raw);
    }
    if Encoded(c) == Some(raw) {
      DecodeOfRecord(c);
    }
  }

  /** The record, field by field: magic, three 16-bit lengths, three texts, all in this order. */
  lemma RecordLayout(c: AgentConfig)
    ensures Encoded(c).Some? ==>
              var raw := Encoded(c).value;
              && |raw| == 10 + |c.nodeId| + |c.ctrlUrl| + |c.token|
              && raw[..4] == [0x41, 0x47, 0x43, 0x31]
              && raw[4] as int + 256 * (raw[5] as int) == |c.nodeId|
              && raw[6] as int + 256 * (raw[7] as int) == |c.ctrlUrl|
              && raw[8] as int + 256 * (raw[9] as int) == |c.token|
              && raw[10..] == c.nodeId + c.ctrlUrl + c.token
  {
    if Encoded(c).Some? {
      var l := Lengths(|c.nodeId|, |c.ctrlUrl|, |c.token|);
      var raw := Record(c);
      SplitRecord(MAGIC, l, c.nodeId, c.ctrlUrl, c.token);
      assert raw[4] == raw[4..10][0] && raw[5] == raw[4..10][1] && raw[6] == raw[4..10][2];
      assert raw[7] == raw[4..10][3] && raw[8] == raw[4..10][4] && raw[9] == raw[4..10][5];
      assert raw == (MAGIC + l) + (c.nodeId + c.ctrlUrl + c.token);
    }
  }

  /** The three length limits are the only way to fail: the largest record has 330 bytes, so
      the budget check behind them never fires. */
  lemma EncodeFailsExactly(c: AgentConfig)
    ensures Encoded(c).None? <==>
            |c.nodeId| > 64 || |c.ctrlUrl| > 192 || |c.token| > 64
    ensures Encoded(c).Some? ==> |Encoded(c).value| <= 330
  {
  }
}
