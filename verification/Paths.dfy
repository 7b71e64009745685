/** Paths as Rust's standard library takes them apart. */
module Paths {
  import opened Texts

  datatype Component = Root | Current | Parent | Normal(part: string)

  /** The components of a path's parts; empty parts and single dots count for nothing. */
  function ComponentsOf(parts: seq<string>): seq<Component> {
    if parts == [] then []
    else if parts[0] == "" || parts[0] == "." then ComponentsOf(parts[1..])
    else [if parts[0] == ".." then Parent else Normal(parts[0])] + ComponentsOf(parts[1..])
  }

  /** A path's components; a leading slash is the root, and only a leading dot is kept. */
  function Components(path: string): seq<Component> {
    Leading(path) + ComponentsOf(Split(path, '/'))
  }

  function Leading(path: string): seq<Component> {
    if path != "" && path[0] == '/' then [Root]
    else if Split(path, '/')[0] == "." then [Current]
    else []
  }

  function Spelled(component: Component): string {
    match component
    case Root => "/"
    case Current => "."
    case Parent => ".."
    case Normal(part) => part
  }

  function SpelledAll(components: seq<Component>): (parts: seq<string>)
    ensures |parts| == |components|
  {
    seq(|components|, i requires 0 <= i < |components| => Spelled(components[i]))
  }

  /** A relative path with `/` between its components, as a digest keys its files. */
  function SlashPath(path: string): string {
    Join(SpelledAll(Components(path)), '/')
  }
}
