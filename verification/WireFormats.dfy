/** The three text messages of the system: the forwarding rule and the Darshana rule a
    sender sends to an overlay node, and the alert Darshana sends to the receiver of alerts. */
module WireFormats {
  import opened Text
  import Seqs

  const RULE_SIZE := 200
  const IP_ADDR_LENGTH := 20
  const DARSHANA_MONITORING_MODE := "lat"
  const DARSHANA_METRICS_THRESHOLDS := "1 1 0.8 1.5 0.3 1"

  /** An address that can travel in a rule: it fits its 20-byte buffer with the closing
      NUL and holds no dash. */
  predicate IsAddress(a: string) {
    IsField(a, '-') && |a| < IP_ADDR_LENGTH
  }

  /** {A,D}-SenderIP-ReceiverIP-ReceiverPort; `rule` 1 appends, anything else deletes. */
  function ForwardSpec(src: string, dst: string, port: nat, rule: int): string {
    (if rule == 1 then "A-" else "D-") + src + "-" + dst + "-" + Decimal(port)
  }

  /** {A,D}-DarIP-DarPort-TargetIP-TargetPort-Mode-Thresholds. */
  function DarshanaSpec(darIp: string, darPort: nat, target: string, targetPort: nat, rule: int): string {
    (if rule == 1 then "A-" else "D-") + darIp + "-" + Decimal(darPort) + "-" + target + "-" + Decimal(targetPort)
    + "-" + DARSHANA_MONITORING_MODE + "-" + DARSHANA_METRICS_THRESHOLDS
  }

  /** Alert,SourceIP,DestinationIP,Metric. */
  function AlertText(alert: string, src: string, dst: string, metric: string): string {
    alert + "," + src + "," + dst + "," + metric
  }

  function Letter(rule: int): string {
    if rule == 1 then "A" else "D"
  }

  lemma DecimalIsField(n: nat)
    ensures IsField(Decimal(n), '-') && IsField(Decimal(n), ',')
  {
  }

  /** The overlay node reads back exactly the four fields the sender wrote, and the port
      text denotes the same number. */
  lemma ForwardSpecRoundTrip(src: string, dst: string, port: nat, rule: int)
    requires IsField(src, '-') && IsField(dst, '-')
    ensures Tokens(ForwardSpec(src, dst, port, rule), '-') == [if rule == 1 then "A" else "D", src, dst, Decimal(port)]
    ensures Atoi(Decimal(port)) == port
  {
    DecimalIsField(port);
    AtoiInvertsDecimal(port);
    JoinFour(Letter(rule), src, dst, Decimal(port), '-');
    Header(rule);
    JoinThenTokens([Letter(rule), src, dst, Decimal(port)], '-');
  }

  lemma Header(rule: int)
    ensures (if rule == 1 then "A-" else "D-") == Letter(rule) + "-"
  {
  }

  lemma JoinTwo(a: string, b: string, d: char)
    ensures Join([a, b], d) == a + [d] + b
  {
    Seqs.Cons(a, [b]);
    assert [a, b] == [a] + [b];
    Seqs.Assoc(a, [d], b);
  }

  lemma JoinFour(a: string, b: string, c: string, e: string, d: char)
    ensures Join([a, b, c, e], d) == a + [d] + b + [d] + c + [d] + e
  {
    assert [a, b, c, e] == [a, b] + [c, e];
    JoinConcat([a, b], [c, e], d);
    JoinTwo(a, b, d);
    JoinTwo(c, e, d);
    Seqs.Assoc(a + [d] + b + [d], c + [d], e);
    Seqs.Assoc(a + [d] + b + [d], c, [d]);
  }

  lemma {:induction false} JoinConcat(a: seq<string>, b: seq<string>, d: char)
    requires a != [] && b != []
    ensures Join(a + b, d) == Join(a, d) + [d] + Join(b, d)
  {
    Seqs.HeadTail(a, b);
    if |a| == 1 {
      Seqs.NilLeft(b);
      Seqs.Assoc(a[0], [d], Join(b, d));
    } else {
      JoinConcat(a[1..], b, d);
      var rest := Join(a[1..], d);
      Seqs.Assoc(a[0], [d] + rest, [d]);
      Seqs.Assoc([d], rest, [d]);
      Seqs.Assoc(a[0], [d] + rest + [d], Join(b, d));
      Seqs.Assoc([d], rest + [d], Join(b, d));
    }
  }

  /** The alert parser recovers the fields of an alert exactly when each is non-empty and
      free of commas: this is also what makes `strtok` skip or split a field. */
  lemma AlertRoundTrip(alert: string, src: string, dst: string, metric: string)
    ensures Tokens(AlertText(alert, src, dst, metric), ',') == [alert, src, dst, metric]
      <==> IsField(alert, ',') && IsField(src, ',') && IsField(dst, ',') && IsField(metric, ',')
  {
    var fields := [alert, src, dst, metric];
    JoinFour(alert, src, dst, metric, ',');
    StrtokRecoversFields(fields, ',');
    assert fields[0] in fields && fields[1] in fields && fields[2] in fields && fields[3] in fields;
  }

  /** The same for the seven fields of the Darshana rule. */
  lemma DarshanaSpecRoundTrip(darIp: string, darPort: nat, target: string, targetPort: nat, rule: int)
    requires IsField(darIp, '-') && IsField(target, '-')
    ensures Tokens(DarshanaSpec(darIp, darPort, target, targetPort, rule), '-')
      == [if rule == 1 then "A" else "D", darIp, Decimal(darPort), target, Decimal(targetPort),
          "lat", "1 1 0.8 1.5 0.3 1"]
    ensures Atoi(Decimal(darPort)) == darPort && Atoi(Decimal(targetPort)) == targetPort
  {
    DecimalIsField(darPort);
    DecimalIsField(targetPort);
    AtoiInvertsDecimal(darPort);
    AtoiInvertsDecimal(targetPort);
    Header(rule);
    var front := [Letter(rule), darIp, Decimal(darPort), target];
    var back := [Decimal(targetPort), DARSHANA_MONITORING_MODE, DARSHANA_METRICS_THRESHOLDS];
    JoinFour(front[0], front[1], front[2], front[3], '-');
    JoinThree(back[0], back[1], back[2], '-');
    JoinConcat(front, back, '-');
    Reassociate(Join(front, '-') + "-", back[0], "-", back[1], "-", back[2]);
    JoinThenTokens(front + back, '-');
  }

  lemma JoinThree(a: string, b: string, c: string, d: char)
    ensures Join([a, b, c], d) == a + [d] + b + [d] + c
  {
    assert [a, b, c] == [a, b] + [c];
    JoinConcat([a, b], [c], d);
    JoinTwo(a, b, d);
  }

  lemma Reassociate(x: string, a: string, b: string, c: string, d: string, e: string)
    ensures x + (a + b + c + d + e) == x + a + b + c + d + e
  {
    Seqs.Assoc(x, a + b + c + d, e);
    Seqs.Assoc(x, a + b + c, d);
    Seqs.Assoc(x, a + b, c);
    Seqs.Assoc(x, a, b);
  }

  /** With the repository's address and port sizes both rules fit, closing NUL included,
      in the 200 bytes that are sent. */
  lemma RulesFit(src: string, dst: string, port: nat, darPort: nat, rule: int)
    requires IsAddress(src) && IsAddress(dst) && port < 65536 && darPort < 65536
    ensures |ForwardSpec(src, dst, port, rule)| + 1 <= 200
    ensures |DarshanaSpec(src, darPort, dst, port, rule)| + 1 <= 200
  {
    assert Pow10(5) == 100000;
    DecimalLength(port, 5);
    DecimalLength(darPort, 5);
  }
}
