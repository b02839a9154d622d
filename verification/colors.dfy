/** Protocol colours for the charts and the packet table: a fixed palette of six
    protocols and one grey for every other protocol. */
module Colors {

  datatype Rgba = Rgba(red: nat, green: nat, blue: nat, alpha: real)

  datatype Rgb = Rgb(red: nat, green: nat, blue: nat)

  /** The palette: the protocols that have a colour of their own. */
  const Palette: map<string, Rgb> := map[
    "http" := Rgb(75, 192, 192),
    "https" := Rgb(54, 162, 235),
    "ftp" := Rgb(255, 159, 64),
    "smtp" := Rgb(153, 102, 255),
    "pop3" := Rgb(255, 99, 132),
    "imap" := Rgb(255, 205, 86)]

  /** The grey shared by every protocol outside the palette. */
  const Fallback: Rgb := Rgb(199, 199, 199)

  function WithAlpha(c: Rgb, opacity: real): Rgba {
    Rgba(c.red, c.green, c.blue, opacity)
  }

  /** The colour of `protocol` at the given opacity: its palette entry, or grey. */
  function ProtocolColor(protocol: string, opacity: real): (c: Rgba)
    ensures c.alpha == opacity
    ensures protocol in Palette ==> c == WithAlpha(Palette[protocol], opacity)
    ensures protocol !in Palette ==> c == WithAlpha(Fallback, opacity)
  {
    if protocol in Palette then WithAlpha(Palette[protocol], opacity) else WithAlpha(Fallback, opacity)
  }

  /** All protocols outside the palette look alike. */
  lemma UnknownProtocolsShareColor(p: string, q: string, opacity: real)
    requires p !in Palette && q !in Palette
    ensures ProtocolColor(p, opacity) == ProtocolColor(q, opacity)
  {
  }

  /** Palette protocols are told apart from each other and from the fallback grey. */
  lemma PaletteColorsDistinct(p: string, q: string, opacity: real)
    requires p in Palette
    ensures q != p ==> ProtocolColor(p, opacity) != ProtocolColor(q, opacity)
  {
    assert Palette.Keys == {"http", "https", "ftp", "smtp", "pop3", "imap"};
  }

  /** Names every plain object literal inherits from `Object.prototype`. */
  const ObjectPrototypeMembers: set<string> := {
    "constructor", "hasOwnProperty", "isPrototypeOf", "propertyIsEnumerable",
    "toLocaleString", "toString", "valueOf", "__proto__",
    "__defineGetter__", "__defineSetter__", "__lookupGetter__", "__lookupSetter__"}

  /** What the colour lookup as written can yield: a colour, or an inherited
      `Object.prototype` member, which is truthy and so wins over the fallback. */
  datatype ColorValue = Color(rgba: Rgba) | InheritedMember(name: string)

  /** The lookup `colors[protocol] || grey` on a plain object literal: own palette
      entries first, then inherited prototype members, then the fallback. */
  function ProtocolColorAsWritten(protocol: string, opacity: real): (v: ColorValue)
    ensures protocol in Palette ==> v == Color(ProtocolColor(protocol, opacity))
    ensures protocol !in Palette && protocol in ObjectPrototypeMembers ==> v == InheritedMember(protocol)
    ensures protocol !in Palette && protocol !in ObjectPrototypeMembers ==> v == Color(ProtocolColor(protocol, opacity))
  {
    if protocol in Palette then Color(WithAlpha(Palette[protocol], opacity))
    else if protocol in ObjectPrototypeMembers then InheritedMember(protocol)
    else Color(WithAlpha(Fallback, opacity))
  }

  /** A protocol labelled "toString" gets a function instead of the grey fallback. */
  lemma InheritedNameEscapesFallback()
    ensures ProtocolColorAsWritten("toString", 1.0) != Color(ProtocolColor("toString", 1.0))
    ensures ProtocolColor("toString", 1.0) == WithAlpha(Fallback, 1.0)
  {
    assert "toString" !in Palette;
  }
}
