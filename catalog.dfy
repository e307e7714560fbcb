/**
 * The static metric catalog: seventeen Tomcat JMX metrics, declared grouped by
 * monitored-object type. Declaration order fixes which enable token applies
 * to which metric and the order of the query batch and the output.
 */
module Catalog {

  import opened Outcomes
  import opened Text
  import opened Patterns

  /** The closed set of monitored-object types. */
  datatype ObjectType = Context | Connector | WebModule

  /**
   * One metric definition. `state` (enabled for this run) and `mbeans` (the
   * query targets found for it, each `<bean> <key>`) are what a run changes.
   */
  datatype Metric = Metric(
    id: string,
    objType: ObjectType,
    pattern: Pattern,
    key: string,
    state: bool,
    mbeans: seq<string>)

  const CachePattern := Pattern("Catalina:context=", ",host=localhost,type=Cache")
  const ManagerPattern := Pattern("Catalina:context=", ",host=localhost,type=Manager")
  const ThreadPoolPattern := Pattern("Catalina:name=\"", "\",type=ThreadPool")
  const RequestProcessorPattern := Pattern("Catalina:name=\"", "\",type=GlobalRequestProcessor")
  // (the long prefix is written in two pieces only so that the verifier can index into it)
  const JspMonitorPattern := Pattern("Catalina:" + "J2EEApplication=none,J2EEServer=none,WebModule=", ",name=jsp,type=JspMonitor")

  /** A catalog entry as declared: disabled, with no targets yet. */
  function Declare(id: string, t: ObjectType, p: Pattern, key: string): Metric {
    Metric(id, t, p, key, false, [])
  }

  /** The catalog in declaration order. */
  function Definitions(): (defs: seq<Metric>)
    ensures |defs| == 17
    ensures forall i :: 0 <= i < |defs| ==> !defs[i].state && defs[i].mbeans == []
  {
    [ Declare("2555:Cache Access:4", Context, CachePattern, "accessCount"),
      Declare("2556:Cache Hits:4", Context, CachePattern, "hitsCount"),
      Declare("2557:Cache Size:4", Context, CachePattern, "cacheSize"),
      Declare("2558:Process Expires Frequency:4", Context, ManagerPattern, "processExpiresFrequency"),
      Declare("2559:Processing Time:4", Context, ManagerPattern, "processingTime"),
      Declare("2560:Max Threads:4", Connector, ThreadPoolPattern, "maxThreads"),
      Declare("2561:Current Thread Count:4", Connector, ThreadPoolPattern, "currentThreadCount"),
      Declare("2562:Current Threads Busy:4", Connector, ThreadPoolPattern, "currentThreadsBusy"),
      Declare("2563:Bytes Sent:4", Connector, RequestProcessorPattern, "bytesSent"),
      Declare("2564:Bytes Received:4", Connector, RequestProcessorPattern, "bytesReceived"),
      Declare("2565:Error Count:4", Connector, RequestProcessorPattern, "errorCount"),
      Declare("2566:Request Count:4", Connector, RequestProcessorPattern, "requestCount"),
      Declare("2567:Max Time:4", Connector, RequestProcessorPattern, "maxTime"),
      Declare("2568:Processing Time:4", Connector, RequestProcessorPattern, "processingTime"),
      Declare("2569:JSP Count:4", WebModule, JspMonitorPattern, "jspCount"),
      Declare("2570:JSP Reload Count:4", WebModule, JspMonitorPattern, "jspReloadCount"),
      Declare("2571:JSP Unload Count:4", WebModule, JspMonitorPattern, "jspUnloadCount") ]
  }

  /** The catalog's table, allocated once per run. */
  method NewCatalog() returns (metrics: array<Metric>)
    ensures fresh(metrics)
    ensures metrics[..] == Definitions()
  {
    metrics := new Metric[|Definitions()|](i requires 0 <= i < |Definitions()| => Definitions()[i]);
  }

  /** The type code of the command line: `1`, `2`, `3`, anything else maps to no type. */
  function MapType(code: string): (t: Option<ObjectType>)
    ensures t == Some(Context) <==> code == "1"
    ensures t == Some(Connector) <==> code == "2"
    ensures t == Some(WebModule) <==> code == "3"
    ensures t.None? <==> code !in {"1", "2", "3"}
  {
    if code == "1" then Some(Context)
    else if code == "2" then Some(Connector)
    else if code == "3" then Some(WebModule)
    else None
  }

  /** The catalog starts disabled and empty, grouped five contexts, nine connectors, three web modules. */
  lemma CatalogLayout()
    ensures |Definitions()| == 17
    ensures forall i :: 0 <= i < 17 ==> !Definitions()[i].state && Definitions()[i].mbeans == []
    ensures forall i :: 0 <= i < 5 ==> Definitions()[i].objType == Context
    ensures forall i :: 5 <= i < 14 ==> Definitions()[i].objType == Connector
    ensures forall i :: 14 <= i < 17 ==> Definitions()[i].objType == WebModule
  {
  }

  /** Every catalog pattern begins and ends with a non-blank literal. */
  lemma CatalogPatternsAnchored()
    ensures forall i :: 0 <= i < |Definitions()| ==> Anchored(Definitions()[i].pattern)
  {
    assert Anchored(CachePattern) && Anchored(ManagerPattern) && Anchored(ThreadPoolPattern);
    assert Anchored(RequestProcessorPattern);
    assert Anchored(JspMonitorPattern);
  }

  /** A key is one non-empty word: no blank, no newline. */
  predicate IsWord(key: string) {
    |key| > 0 && forall k :: 0 <= k < |key| ==> key[k] != ' ' && key[k] != '\n'
  }

  /** Text with no line break. */
  predicate IsLine(s: string) {
    forall k :: 0 <= k < |s| ==> s[k] != '\n'
  }

  /** An entry whose id prints on one line and whose key is one word. */
  predicate PlainEntry(m: Metric) {
    IsLine(m.id) && IsWord(m.key)
  }

  /** Every catalog key is a word. */
  lemma CatalogKeysAreWords()
    ensures forall i :: 0 <= i < |Definitions()| ==> IsWord(Definitions()[i].key)
  {
    CatalogEntriesArePlain();
  }

  /** No catalog id holds a line break, so every id prints on one report line. */
  lemma CatalogIdsAreLines()
    ensures forall i :: 0 <= i < |Definitions()| ==> IsLine(Definitions()[i].id)
  {
    CatalogEntriesArePlain();
  }

  /** Every catalog entry is plain, group by group. */
  lemma CatalogEntriesArePlain()
    ensures forall i :: 0 <= i < |Definitions()| ==> PlainEntry(Definitions()[i])
  {
    CacheEntriesArePlain();
    ManagerEntriesArePlain();
    ThreadPoolEntriesArePlain();
    RequestProcessorEntriesArePlain();
    JspMonitorEntriesArePlain();
  }

  /** The three cache entries are plain. */
  lemma CacheEntriesArePlain()
    ensures forall i :: 0 <= i < 3 ==> PlainEntry(Definitions()[i])
  {
    assert IsLine("2555:Cache Access:4") && IsWord("accessCount");
    assert IsLine("2556:Cache Hits:4") && IsWord("hitsCount");
    assert IsLine("2557:Cache Size:4") && IsWord("cacheSize");
  }

  /** The two session manager entries are plain. */
  lemma ManagerEntriesArePlain()
    ensures forall i :: 3 <= i < 5 ==> PlainEntry(Definitions()[i])
  {
    assert IsLine("2558:Process Expires Frequency:4") && IsWord("processExpiresFrequency");
    assert IsLine("2559:Processing Time:4") && IsWord("processingTime");
  }

  /** The three thread pool entries are plain. */
  lemma ThreadPoolEntriesArePlain()
    ensures forall i :: 5 <= i < 8 ==> PlainEntry(Definitions()[i])
  {
    assert IsLine("2560:Max Threads:4") && IsWord("maxThreads");
    assert IsLine("2561:Current Thread Count:4") && IsWord("currentThreadCount");
    assert IsLine("2562:Current Threads Busy:4") && IsWord("currentThreadsBusy");
  }

  /** The six request processor entries are plain. */
  lemma RequestProcessorEntriesArePlain()
    ensures forall i :: 8 <= i < 14 ==> PlainEntry(Definitions()[i])
  {
    TrafficEntriesArePlain();
    LoadEntriesArePlain();
  }

  /** The traffic counters of the request processor are plain. */
  lemma TrafficEntriesArePlain()
    ensures forall i :: 8 <= i < 11 ==> PlainEntry(Definitions()[i])
  {
    assert IsLine("2563:Bytes Sent:4") && IsWord("bytesSent");
    assert IsLine("2564:Bytes Received:4") && IsWord("bytesReceived");
    assert IsLine("2565:Error Count:4") && IsWord("errorCount");
  }

  /** The load counters of the request processor are plain. */
  lemma LoadEntriesArePlain()
    ensures forall i :: 11 <= i < 14 ==> PlainEntry(Definitions()[i])
  {
    assert IsLine("2566:Request Count:4") && IsWord("requestCount");
    assert IsLine("2567:Max Time:4") && IsWord("maxTime");
    assert IsLine("2568:Processing Time:4") && IsWord("processingTime");
  }

  /** The three JSP monitor entries are plain. */
  lemma JspMonitorEntriesArePlain()
    ensures forall i :: 14 <= i < 17 ==> PlainEntry(Definitions()[i])
  {
    assert IsLine("2569:JSP Count:4") && IsWord("jspCount");
    assert IsLine("2570:JSP Reload Count:4") && IsWord("jspReloadCount");
    assert IsLine("2571:JSP Unload Count:4") && IsWord("jspUnloadCount");
  }

  /** The literal pieces of the thread pool pattern hold no line break, carriage return or `$`. */
  lemma ThreadPoolPatternIsPlain()
    ensures '\n' !in ThreadPoolPattern.prefix && '\r' !in ThreadPoolPattern.prefix && '$' !in ThreadPoolPattern.prefix
    ensures '\n' !in ThreadPoolPattern.suffix && '\r' !in ThreadPoolPattern.suffix && '$' !in ThreadPoolPattern.suffix
  {
    var p := ThreadPoolPattern;
    assert forall k :: 0 <= k < |p.prefix| ==> p.prefix[k] != '\n' && p.prefix[k] != '\r' && p.prefix[k] != '$';
    assert forall k :: 0 <= k < |p.suffix| ==> p.suffix[k] != '\n' && p.suffix[k] != '\r' && p.suffix[k] != '$';
  }

  /** The patterns of the five declared groups, in declaration order. */
  function GroupPattern(g: nat): Pattern
    requires g < 5
  {
    [CachePattern, ManagerPattern, ThreadPoolPattern, RequestProcessorPattern, JspMonitorPattern][g]
  }

  /** The group of the entry at index `i`: entries of one group are declared together. */
  function Group(i: nat): (g: nat)
    ensures g < 5
  {
    if i < 3 then 0 else if i < 5 then 1 else if i < 8 then 2 else if i < 14 then 3 else 4
  }

  /** Each entry carries the pattern of its group. */
  lemma CatalogGroups()
    ensures forall i :: 0 <= i < |Definitions()| ==> Definitions()[i].pattern == GroupPattern(Group(i))
  {
  }

  /** The five group patterns differ pairwise: each pair differs in the length of a literal. */
  lemma GroupPatternsDistinct()
    ensures forall g, h :: 0 <= g < h < 5 ==> GroupPattern(g) != GroupPattern(h)
  {
    assert |CachePattern.suffix| == 26 && |ManagerPattern.suffix| == 28;
    assert |ThreadPoolPattern.suffix| == 17 && |RequestProcessorPattern.suffix| == 29;
    assert |CachePattern.prefix| == 17 && |ThreadPoolPattern.prefix| == 15;
    assert |JspMonitorPattern.prefix| == 56;
  }

  /** Within a group no key repeats. */
  lemma GroupKeysDistinct()
    ensures forall i, j :: 0 <= i < j < |Definitions()| && Group(i) == Group(j) ==> Definitions()[i].key != Definitions()[j].key
  {
    assert "hitsCount"[0] != "cacheSize"[0];
    assert "currentThreadCount"[13] != "currentThreadsBusy"[13];
    assert "jspReloadCount"[3] != "jspUnloadCount"[3];
  }

  /** No two catalog entries share both pattern and key, so the pair names its metric. */
  lemma CatalogPairsDistinct()
    ensures forall i, j :: 0 <= i < j < |Definitions()| ==>
      (Definitions()[i].pattern, Definitions()[i].key) != (Definitions()[j].pattern, Definitions()[j].key)
  {
    CatalogGroups();
    GroupPatternsDistinct();
    GroupKeysDistinct();
    forall i, j | 0 <= i < j < |Definitions()|
      ensures (Definitions()[i].pattern, Definitions()[i].key) != (Definitions()[j].pattern, Definitions()[j].key)
    {
      if Group(i) < Group(j) {
        assert GroupPattern(Group(i)) != GroupPattern(Group(j));
      } else {
        assert Group(i) == Group(j);
      }
    }
  }
}
