/**
  The enumerations of the item API and their integer wire codes, which are
  fixed by the Zabbix 2.0 API and must not be renumbered.
 */
module Codes {
  import opened Wire

  /** How the server obtains the item's values. */
  datatype ItemType =
    | ZabbixAgent | SNMPv1Agent | ZabbixTrapper | SimpleCheck | SNMPv2Agent
    | ZabbixInternal | SNMPv3Agent | ZabbixAgentActive | ZabbixAggregate | WebItem
    | ExternalCheck | DatabaseMonitor | IPMIAgent | SSHAgent | TELNETAgent
    | Calculated | JMXAgent

  /** Type of information the item stores. */
  datatype ValueType = Float | Character | Log | Unsigned | Text

  /** How an integer item value is presented. */
  datatype DataType = Decimal | Octal | Hexadecimal | Boolean

  /** Whether the stored value is the raw value, its speed or its difference. */
  datatype DeltaType = AsIs | Speed | Delta

  function ItemTypeCode(t: ItemType): (c: nat)
    ensures c < 17
  {
    match t
    case ZabbixAgent => 0
    case SNMPv1Agent => 1
    case ZabbixTrapper => 2
    case SimpleCheck => 3
    case SNMPv2Agent => 4
    case ZabbixInternal => 5
    case SNMPv3Agent => 6
    case ZabbixAgentActive => 7
    case ZabbixAggregate => 8
    case WebItem => 9
    case ExternalCheck => 10
    case DatabaseMonitor => 11
    case IPMIAgent => 12
    case SSHAgent => 13
    case TELNETAgent => 14
    case Calculated => 15
    case JMXAgent => 16
  }

  /** Reads a wire code back; codes outside the table name no item type. */
  function ItemTypeOf(c: int): (r: Option<ItemType>)
    ensures r.Some? <==> 0 <= c < 17
  {
    if c == 0 then Some(ZabbixAgent)
    else if c == 1 then Some(SNMPv1Agent)
    else if c == 2 then Some(ZabbixTrapper)
    else if c == 3 then Some(SimpleCheck)
    else if c == 4 then Some(SNMPv2Agent)
    else if c == 5 then Some(ZabbixInternal)
    else if c == 6 then Some(SNMPv3Agent)
    else if c == 7 then Some(ZabbixAgentActive)
    else if c == 8 then Some(ZabbixAggregate)
    else if c == 9 then Some(WebItem)
    else if c == 10 then Some(ExternalCheck)
    else if c == 11 then Some(DatabaseMonitor)
    else if c == 12 then Some(IPMIAgent)
    else if c == 13 then Some(SSHAgent)
    else if c == 14 then Some(TELNETAgent)
    else if c == 15 then Some(Calculated)
    else if c == 16 then Some(JMXAgent)
    else None
  }

  /** The code table is a bijection between item types and the codes 0..16. */
  lemma ItemTypeCodeBijective(t: ItemType, c: int)
    ensures ItemTypeOf(c) == Some(t) <==> ItemTypeCode(t) == c
  {
  }

  function ValueTypeCode(v: ValueType): (c: nat)
    ensures c < 5
  {
    match v
    case Float => 0
    case Character => 1
    case Log => 2
    case Unsigned => 3
    case Text => 4
  }

  function ValueTypeOf(c: int): (r: Option<ValueType>)
    ensures r.Some? <==> 0 <= c < 5
  {
    if c == 0 then Some(Float)
    else if c == 1 then Some(Character)
    else if c == 2 then Some(Log)
    else if c == 3 then Some(Unsigned)
    else if c == 4 then Some(Text)
    else None
  }

  lemma ValueTypeCodeBijective(v: ValueType, c: int)
    ensures ValueTypeOf(c) == Some(v) <==> ValueTypeCode(v) == c
  {
  }

  function DataTypeCode(d: DataType): (c: nat)
    ensures c < 4
  {
    match d
    case Decimal => 0
    case Octal => 1
    case Hexadecimal => 2
    case Boolean => 3
  }

  function DataTypeOf(c: int): (r: Option<DataType>)
    ensures r.Some? <==> 0 <= c < 4
  {
    if c == 0 then Some(Decimal)
    else if c == 1 then Some(Octal)
    else if c == 2 then Some(Hexadecimal)
    else if c == 3 then Some(Boolean)
    else None
  }

  lemma DataTypeCodeBijective(d: DataType, c: int)
    ensures DataTypeOf(c) == Some(d) <==> DataTypeCode(d) == c
  {
  }

  function DeltaTypeCode(d: DeltaType): (c: nat)
    ensures c < 3
  {
    match d
    case AsIs => 0
    case Speed => 1
    case Delta => 2
  }

  function DeltaTypeOf(c: int): (r: Option<DeltaType>)
    ensures r.Some? <==> 0 <= c < 3
  {
    if c == 0 then Some(AsIs)
    else if c == 1 then Some(Speed)
    else if c == 2 then Some(Delta)
    else None
  }

  lemma DeltaTypeCodeBijective(d: DeltaType, c: int)
    ensures DeltaTypeOf(c) == Some(d) <==> DeltaTypeCode(d) == c
  {
  }
}
