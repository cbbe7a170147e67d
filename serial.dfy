/** Serial ports as the backup tab and the application list them. */
module Serial {
  import opened Wrappers

  /** A port as the enumeration library reports it; vendor and product may be missing. */
  datatype SerialItem = SerialItem(name: string, vendor: Option<string>, product: Option<string>)

  /** `SerialPort`: the wrapper with missing vendor and product replaced by "". */
  datatype SerialPort = SerialPort(name: string, vendor: string, product: string)

  /** The entry shown when no port is found, so that the selector is never empty. */
  const Placeholder := SerialPort("No serial port found!", "", "")

  function OrEmpty(o: Option<string>): string {
    match o
    case Some(s) => s
    case None => ""
  }

  /** One enumerated item turned into a `SerialPort`. */
  function FromItem(item: SerialItem): (p: SerialPort)
    ensures p.name == item.name
    ensures item.vendor.Some? ==> p.vendor == item.vendor.value
    ensures item.vendor.None? ==> p.vendor == ""
    ensures item.product.Some? ==> p.product == item.product.value
    ensures item.product.None? ==> p.product == ""
  {
    SerialPort(item.name, OrEmpty(item.vendor), OrEmpty(item.product))
  }

  /** `get_ports`: every enumerated item, in order, converted. */
  function GetPorts(items: seq<SerialItem>): (ports: seq<SerialPort>)
    ensures |ports| == |items|
    ensures forall i | 0 <= i < |items| :: ports[i] == FromItem(items[i])
  {
    if items == [] then [] else [FromItem(items[0])] + GetPorts(items[1..])
  }

  /** The port list of `BackupTab::new`: the enumeration, or the placeholder alone when it is empty. */
  function WithPlaceholder(ports: seq<SerialPort>): (r: seq<SerialPort>)
    ensures |r| > 0
    ensures ports == [] ==> r == [Placeholder]
    ensures ports != [] ==> r == ports
  {
    if |ports| == 0 then ports + [Placeholder] else ports
  }

  /** `Display for SerialPort`: the text shown for a port. */
  function Display(p: SerialPort): string {
    p.name
  }

  /** The displayed text is the port's name; vendor and product never show. */
  lemma DisplayIsName(p: SerialPort, vendor: string, product: string)
    ensures Display(p) == p.name
    ensures Display(p.(vendor := vendor, product := product)) == Display(p)
  {
  }
}
