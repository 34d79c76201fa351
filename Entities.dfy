/** The game's entity model: the enumerations and the small mutable
    classes GameObject, Ghost, Pacman, Coin and Cherry. Each entity holds
    its GameObject part (the grid position) as a `body` created with it;
    properties with a private setter or only a getter are `const` fields. */
module Entities {
  import opened Numbers

  /** GhostState: a ghost's behavioural state. */
  datatype GhostState = Normal | Vulnerable | Eaten | InHouse

  /** Direction: the player's movement intent. The source's `None` is
      `NoDirection` here, apart from the `None` of the Option type. */
  datatype Direction = NoDirection | Up | Down | Left | Right

  /** GameMode: linear levels or endless random levels. */
  datatype GameMode = Story | Survivor

  /** A ghost's personality; its values are declared outside this model. */
  type GhostType(==)

  /** A bonus item's effect; its values are declared outside this model. */
  type CherryType(==)

  /** GameObject: a position on the grid. The setters check no bounds. */
  class GameObject {
    var x: int32
    var y: int32

    constructor (x: int32, y: int32)
      ensures this.x == x && this.y == y
    {
      this.x := x;
      this.y := y;
    }

    /** Assigning X leaves Y as it was. */
    method SetX(v: int32)
      modifies this
      ensures x == v && y == old(y)
    {
      x := v;
    }

    /** Assigning Y leaves X as it was. */
    method SetY(v: int32)
      modifies this
      ensures y == v && x == old(x)
    {
      y := v;
    }
  }

  /** Ghost: state and last move are writable; the start tile and the
      personality are fixed when the ghost is created. */
  class Ghost {
    const body: GameObject
    var state: GhostState
    const ghostType: GhostType
    var lastDirX: int32
    var lastDirY: int32
    const startX: int32
    const startY: int32

    /** A new ghost starts Normal, with no last move, and remembers its
        initial tile as its start tile. */
    constructor (x: int32, y: int32, ghostType: GhostType)
      ensures fresh(body) && body.x == x && body.y == y
      ensures state == Normal && lastDirX == 0 && lastDirY == 0
      ensures startX == x && startY == y && this.ghostType == ghostType
    {
      body := new GameObject(x, y);
      state := Normal;
      this.ghostType := ghostType;
      lastDirX := 0;
      lastDirY := 0;
      startX := x;
      startY := y;
    }

    /** Changing the state leaves the position and the last move unchanged. */
    method SetState(s: GhostState)
      modifies this
      ensures state == s
      ensures lastDirX == old(lastDirX) && lastDirY == old(lastDirY)
      ensures unchanged(body)
    {
      state := s;
    }

    /** Recording a move leaves the state and the position unchanged. */
    method SetLastDir(dx: int32, dy: int32)
      modifies this
      ensures lastDirX == dx && lastDirY == dy
      ensures state == old(state)
      ensures unchanged(body)
    {
      lastDirX := dx;
      lastDirY := dy;
    }

    /** Moving the ghost changes only its position: its state, last move,
        start tile and personality stay. */
    method MoveTo(nx: int32, ny: int32)
      modifies body
      ensures body.x == nx && body.y == ny
      ensures unchanged(this)
    {
      body.SetX(nx);
      body.SetY(ny);
    }
  }

  /** Pacman: the player, with three lives and no score at the start. */
  class Pacman {
    const body: GameObject
    var lives: int32
    var score: int32

    constructor (x: int32, y: int32)
      ensures fresh(body) && body.x == x && body.y == y
      ensures lives == 3 && score == 0
    {
      body := new GameObject(x, y);
      lives := 3;
      score := 0;
    }

    /** Assigning Lives leaves the score and the position unchanged; no
        range is enforced. */
    method SetLives(v: int32)
      modifies this
      ensures lives == v && score == old(score)
      ensures unchanged(body)
    {
      lives := v;
    }

    /** Assigning Score leaves the lives and the position unchanged. */
    method SetScore(v: int32)
      modifies this
      ensures score == v && lives == old(lives)
      ensures unchanged(body)
    {
      score := v;
    }

    /** Moving the player changes only its position. */
    method MoveTo(nx: int32, ny: int32)
      modifies body
      ensures body.x == nx && body.y == ny
      ensures unchanged(this)
    {
      body.SetX(nx);
      body.SetY(ny);
    }
  }

  /** Coin: a dot, or a power pellet when so created; the kind is read-only. */
  class Coin {
    const body: GameObject
    const isPowerPellet: bool

    /** Without `isPower` the coin is a standard dot. */
    constructor (x: int32, y: int32, isPower: bool := false)
      ensures fresh(body) && body.x == x && body.y == y
      ensures isPowerPellet == isPower
    {
      body := new GameObject(x, y);
      isPowerPellet := isPower;
    }

    /** Moving the coin keeps its kind. */
    method MoveTo(nx: int32, ny: int32)
      modifies body
      ensures body.x == nx && body.y == ny
      ensures unchanged(this)
    {
      body.SetX(nx);
      body.SetY(ny);
    }
  }

  /** Cherry: a bonus item whose effect type is fixed at creation. */
  class Cherry {
    const body: GameObject
    const cherryType: CherryType

    constructor (x: int32, y: int32, cherryType: CherryType)
      ensures fresh(body) && body.x == x && body.y == y
      ensures this.cherryType == cherryType
    {
      body := new GameObject(x, y);
      this.cherryType := cherryType;
    }

    /** Moving the cherry keeps its type. */
    method MoveTo(nx: int32, ny: int32)
      modifies body
      ensures body.x == nx && body.y == ny
      ensures unchanged(this)
    {
      body.SetX(nx);
      body.SetY(ny);
    }
  }
}
