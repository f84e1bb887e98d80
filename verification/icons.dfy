/**
 * Icon and colour lookups used by the desktop and the portfolio pages: a
 * named icon with the user icon as fallback, and a Tailwind background class
 * per colour name with grey as fallback.
 */
module IconUtils {

  /** The icons `getIcon` knows (their SVG drawings are not modelled). */
  datatype Icon = User | Windows | Computer | Network | Shield | Contact | Email | LinkedIn | GitHub

  const IconsByName: map<string, Icon> := map[
    "user" := User, "windows" := Windows, "computer" := Computer, "network" := Network,
    "shield" := Shield, "contact" := Contact, "email" := Email, "linkedin" := LinkedIn, "github" := GitHub]

  /** `icons[iconType] || icons.user`. */
  function GetIcon(iconType: string): (icon: Icon)
    ensures iconType in IconsByName ==> icon == IconsByName[iconType]
    ensures iconType !in IconsByName ==> icon == User
  {
    if iconType in IconsByName then IconsByName[iconType] else User
  }

  /**
   * The nine names are nine separate entries of the table. As pictures, two of
   * them coincide: the `user` and `contact` entries draw the same SVG.
   */
  lemma IconNamesAreUnique(a: string, b: string)
    requires a in IconsByName && b in IconsByName && a != b
    ensures IconsByName[a] != IconsByName[b]
  {
  }

  /** The key each entry is stored under. */
  function NameOf(icon: Icon): (name: string)
    ensures name in IconsByName && IconsByName[name] == icon
  {
    match icon
    case User => "user"
    case Windows => "windows"
    case Computer => "computer"
    case Network => "network"
    case Shield => "shield"
    case Contact => "contact"
    case Email => "email"
    case LinkedIn => "linkedin"
    case GitHub => "github"
  }

  /** Looking up an entry's own key gives the entry back: every icon can be asked for by name. */
  lemma GetIconOfName(icon: Icon)
    ensures GetIcon(NameOf(icon)) == icon
  {
  }

  /** Whether an entry draws the person picture; the `user` and `contact` drawings are identical. */
  predicate DrawsPerson(icon: Icon)
  {
    icon == User || icon == Contact
  }

  /** The person picture is drawn exactly for "user", for "contact" and for every unknown name. */
  lemma PersonPictureNames(name: string)
    ensures DrawsPerson(GetIcon(name)) <==> name !in IconsByName || name == "user" || name == "contact"
  {
  }

  /** The colour names `getColorClass` knows. */
  const ColorNames: seq<string> := ["blue", "green", "red", "orange", "purple", "pink", "gray", "yellow", "indigo"]

  const ColorMap: map<string, string> := map[
    "blue" := "bg-blue-500", "green" := "bg-green-500", "red" := "bg-red-500",
    "orange" := "bg-orange-500", "purple" := "bg-purple-500", "pink" := "bg-pink-500",
    "gray" := "bg-gray-500", "yellow" := "bg-yellow-500", "indigo" := "bg-indigo-500"]

  const FallbackColorClass := "bg-gray-500"

  /** The class naming scheme the table follows. */
  function ColorClass(color: string): string
  {
    "bg-" + color + "-500"
  }

  /** The table is exactly the scheme applied to the nine colour names. */
  lemma ColorMapFollowsScheme()
    ensures ColorMap.Keys == set c | c in ColorNames
    ensures forall c :: c in ColorMap ==> ColorMap[c] == ColorClass(c)
  {
    assert ColorClass("blue") == "bg-blue-500";
    assert ColorClass("green") == "bg-green-500";
    assert ColorClass("red") == "bg-red-500";
    assert ColorClass("orange") == "bg-orange-500";
    assert ColorClass("purple") == "bg-purple-500";
    assert ColorClass("pink") == "bg-pink-500";
    assert ColorClass("gray") == "bg-gray-500";
    assert ColorClass("yellow") == "bg-yellow-500";
    assert ColorClass("indigo") == "bg-indigo-500";
  }

  /** `colorMap[color] || 'bg-gray-500'`: the colour's class, or grey for an unknown colour. */
  function GetColorClass(color: string): (cls: string)
    ensures color in ColorMap ==> cls == ColorClass(color)
    ensures color !in ColorMap ==> cls == FallbackColorClass
    ensures cls in ColorMap.Values
  {
    ColorMapFollowsScheme();
    if color in ColorMap && ColorMap[color] != "" then ColorMap[color]
    else
      assert ColorMap["gray"] == FallbackColorClass;
      FallbackColorClass
  }

  /** Every result names one of the listed colours, and the known colours are told apart. */
  lemma GetColorClassNamesAColor(color: string, other: string)
    ensures exists c :: c in ColorMap && GetColorClass(color) == ColorClass(c)
    ensures color in ColorMap && other in ColorMap && color != other ==> GetColorClass(color) != GetColorClass(other)
  {
    if color in ColorMap {
      assert GetColorClass(color) == ColorClass(color);
    } else {
      assert GetColorClass(color) == ColorClass("gray");
    }
    if color in ColorMap && other in ColorMap && color != other {
      var cls := ColorClass(color);
      var ocls := ColorClass(other);
      assert cls[3..|cls| - 4] == color;
      assert ocls[3..|ocls| - 4] == other;
    }
  }
}
